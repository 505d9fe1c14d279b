/** sleep and wakeup (proc.c) as interleaved atomic steps of any number of processes that share
    data x under one spin lock `lk`. A step that is not enabled changes nothing.

    Processes keep to one rule. A process goes to sleep on channel c only after finding, under
    lk, that c's condition is false; and whoever changes x so that a condition becomes true
    calls wakeup on that channel before letting go of lk. What x and the conditions are is left
    open, so the theorem serves sleep locks, pipes and the log alike. */
module SleepWakeup {
  import opened Common

  /** Where a process is. The comments say which locks it holds. */
  datatype Pc<C> =
    | Outside               // none
    | Inside                // lk
    | WantTable(chan: C)    // in sleep, lk; before acquire(&ptable.lock)
    | HasTable(chan: C)     // in sleep, lk and ptable.lock; before release(lk)
    | LetGo(chan: C)        // in sleep, ptable.lock; before p->state = SLEEPING
    | Asleep(chan: C)       // state SLEEPING
    | Woken                 // state RUNNABLE, inside sleep; about to reacquire lk
    | WantScan(chan: C)     // in wakeup, lk; before acquire(&ptable.lock)
    | Scan(chan: C, i: nat) // in wakeup1, lk and ptable.lock; entries below i are done

  /** due: channels whose condition the holder of lk has made true and not yet announced. */
  datatype State<X, C(==)> = State(x: X, lk: Option<nat>, table: Option<nat>, procs: seq<Pc<C>>, due: set<C>)

  datatype Event<X, C(==)> =
    | Acquire(p: nat)
    | Release(p: nat)
    | Update(p: nat, x: X, announce: set<C>)
    | Sleep(p: nat, chan: C)
    | SleepTable(p: nat)
    | SleepRelease(p: nat)
    | SleepSet(p: nat)
    | Reacquire(p: nat)
    | Wakeup(p: nat, chan: C)
    | WakeupTable(p: nat)
    | WakeupScan(p: nat)
    | WakeupDone(p: nat)
    | Kill(p: nat)

  type Ready<!X, !C> = (C, X) -> bool

  predicate Holds<X, C(==)>(s: State<X, C>, p: nat) {
    s.lk == Some(p)
  }

  function With<X, C(==)>(s: State<X, C>, p: nat, pc: Pc<C>): State<X, C>
    requires p < |s.procs|
  {
    s.(procs := s.procs[p := pc])
  }

  /** Every condition that the change from x to x' makes true is announced. */
  ghost predicate Announced<X, C(!new)>(ready: Ready<X, C>, x: X, x': X, announce: set<C>) {
    forall c :: !ready(c, x) && ready(c, x') ==> c in announce
  }

  ghost function Step<X, C(!new)>(ready: Ready<X, C>, s: State<X, C>, e: Event<X, C>): State<X, C> {
    if e.p >= |s.procs| then s
    else
      var p := e.p;
      var pc := s.procs[p];
      match e
      case Acquire(_) => if pc.Outside? && s.lk == None then With(s, p, Inside).(lk := Some(p)) else s
      case Release(_) => if pc.Inside? && s.due == {} then With(s, p, Outside).(lk := None) else s
      case Update(_, x, announce) =>
        if pc.Inside? && Announced(ready, s.x, x, announce) then s.(x := x, due := s.due + announce) else s
      case Sleep(_, c) =>
        if pc.Inside? && s.due == {} && !ready(c, s.x) then With(s, p, WantTable(c)) else s
      case SleepTable(_) =>
        if pc.WantTable? && s.table == None then With(s, p, HasTable(pc.chan)).(table := Some(p)) else s
      case SleepRelease(_) => if pc.HasTable? then With(s, p, LetGo(pc.chan)).(lk := None) else s
      case SleepSet(_) => if pc.LetGo? then With(s, p, Asleep(pc.chan)).(table := None) else s
      case Reacquire(_) => if pc.Woken? && s.lk == None then With(s, p, Inside).(lk := Some(p)) else s
      case Wakeup(_, c) => if pc.Inside? then With(s, p, WantScan(c)) else s
      case WakeupTable(_) =>
        if pc.WantScan? && s.table == None then With(s, p, Scan(pc.chan, 0)).(table := Some(p)) else s
      case WakeupScan(_) =>
        if pc.Scan? && pc.i < |s.procs| then
          var q := pc.i;
          var s1 := if s.procs[q] == Asleep(pc.chan) then With(s, q, Woken) else s;
          With(s1, p, Scan(pc.chan, pc.i + 1))
        else s
      case WakeupDone(_) =>
        if pc.Scan? && pc.i >= |s.procs| then With(s, p, Inside).(table := None, due := s.due - {pc.chan}) else s
      case Kill(_) => if pc.Asleep? && s.table == None then With(s, p, Woken) else s
  }

  ghost function Run<X, C(!new)>(ready: Ready<X, C>, s: State<X, C>, es: seq<Event<X, C>>): State<X, C>
    decreases |es|
  {
    if es == [] then s else Step(ready, Run(ready, s, es[..|es|-1]), es[|es|-1])
  }

  function Init<X, C(==)>(x: X, n: nat): State<X, C> {
    State(x, None, None, seq(n, _ => Outside), {})
  }

  // ----- the invariant

  predicate HasLk<C>(pc: Pc<C>) {
    pc.Inside? || pc.WantTable? || pc.HasTable? || pc.WantScan? || pc.Scan?
  }

  predicate HasPtable<C>(pc: Pc<C>) {
    pc.HasTable? || pc.LetGo? || pc.Scan?
  }

  predicate LkOwned<X, C(==)>(s: State<X, C>) {
    && (forall p :: 0 <= p < |s.procs| ==> (HasLk(s.procs[p]) <==> s.lk == Some(p)))
    && (s.lk.Some? ==> s.lk.value < |s.procs|)
  }

  predicate TableOwned<X, C(==)>(s: State<X, C>) {
    && (forall p :: 0 <= p < |s.procs| ==> (HasPtable(s.procs[p]) <==> s.table == Some(p)))
    && (s.table.Some? ==> s.table.value < |s.procs|)
  }

  /** Each lock's owner is the process whose code says so. */
  predicate Locks<X, C(==)>(s: State<X, C>) {
    LkOwned(s) && TableOwned(s)
  }

  /** A process past its test of the condition is covered: the condition is still false, or
      whoever made it true has yet to finish its wakeup. */
  predicate Covered<X, C(==)>(ready: Ready<X, C>, s: State<X, C>, p: nat)
    requires p < |s.procs|
  {
    match s.procs[p]
    case WantTable(c) => !ready(c, s.x)
    case HasTable(c) => !ready(c, s.x)
    case LetGo(c) => ready(c, s.x) ==> c in s.due
    case Asleep(c) =>
      && (ready(c, s.x) ==> c in s.due)
      && (forall q :: 0 <= q < |s.procs| && s.procs[q].Scan? && s.procs[q].chan == c && ready(c, s.x) ==>
            s.procs[q].i <= p)
    case _ => true
  }

  /** Only a process that holds lk and is not going to sleep owes a wakeup. */
  predicate DueHeld<X, C(==)>(s: State<X, C>) {
    s.due != {} ==>
      s.lk.Some? && s.lk.value < |s.procs| &&
      (s.procs[s.lk.value].Inside? || s.procs[s.lk.value].WantScan? || s.procs[s.lk.value].Scan?)
  }

  ghost predicate Inv<X, C(!new)>(ready: Ready<X, C>, s: State<X, C>) {
    Locks(s) && DueHeld(s) && forall p :: 0 <= p < |s.procs| ==> Covered(ready, s, p)
  }

  /** In a state with lk free, nobody sleeps on a channel whose condition is true. */
  predicate NoLostWakeup<X, C(==)>(ready: Ready<X, C>, s: State<X, C>) {
    s.lk == None ==> forall p :: 0 <= p < |s.procs| && s.procs[p].Asleep? ==> !ready(s.procs[p].chan, s.x)
  }

  lemma StepLk<X, C(!new)>(ready: Ready<X, C>, s: State<X, C>, e: Event<X, C>)
    requires LkOwned(s)
    ensures LkOwned(Step(ready, s, e))
  {}

  lemma StepTable<X, C(!new)>(ready: Ready<X, C>, s: State<X, C>, e: Event<X, C>)
    requires TableOwned(s)
    ensures TableOwned(Step(ready, s, e))
  {}

  lemma StepDue<X, C(!new)>(ready: Ready<X, C>, s: State<X, C>, e: Event<X, C>)
    requires LkOwned(s) && DueHeld(s)
    ensures DueHeld(Step(ready, s, e))
  {}

  lemma StepLocks<X, C(!new)>(ready: Ready<X, C>, s: State<X, C>, e: Event<X, C>)
    requires Locks(s) && DueHeld(s)
    ensures Locks(Step(ready, s, e)) && DueHeld(Step(ready, s, e))
  {
    hide Step, LkOwned, TableOwned, DueHeld;
    StepLk(ready, s, e);
    StepTable(ready, s, e);
    StepDue(ready, s, e);
  }

  /** What a step does to another process: nothing, except that a scan or a kill wakes it. */
  lemma Others<X, C(!new)>(ready: Ready<X, C>, s: State<X, C>, e: Event<X, C>, q: nat)
    requires q < |s.procs| && q != e.p
    ensures
      var t := Step(ready, s, e);
      |t.procs| == |s.procs| && (t.procs[q] == s.procs[q] || (s.procs[q].Asleep? && t.procs[q] == Woken))
  {}

  /** x and due change only while the process that changes them is Inside, or ends its scan. */
  lemma Shared<X, C(!new)>(ready: Ready<X, C>, s: State<X, C>, e: Event<X, C>)
    requires e.p < |s.procs|
    ensures
      var t, pc := Step(ready, s, e), s.procs[e.p];
      && (t.x != s.x ==> pc.Inside? && e.Update?)
      && (e.Update? ==> t == s || (pc.Inside? && s.due <= t.due && Announced(ready, s.x, t.x, t.due)))
      && (!e.Update? && !e.WakeupDone? ==> t.due == s.due)
      && (e.WakeupDone? ==> t == s || (pc.Scan? && pc.i >= |s.procs| && t.due == s.due - {pc.chan}))
  {}

  lemma CoveredSelf<X, C(!new)>(ready: Ready<X, C>, s: State<X, C>, e: Event<X, C>)
    requires Inv(ready, s) && e.p < |s.procs|
    ensures Covered(ready, Step(ready, s, e), e.p)
  {
    var t := Step(ready, s, e);
    assert Covered(ready, s, e.p);
    StepLocks(ready, s, e);
    if t.procs[e.p].Asleep? && s.procs[e.p].LetGo? {
      forall q | 0 <= q < |t.procs|
        ensures !t.procs[q].Scan?
      {
        assert HasPtable(t.procs[q]) <==> t.table == Some(q);
      }
    }
  }

  lemma CoveredOther<X, C(!new)>(ready: Ready<X, C>, s: State<X, C>, e: Event<X, C>, p: nat)
    requires Inv(ready, s) && e.p < |s.procs| && p < |s.procs| && p != e.p
    ensures Covered(ready, Step(ready, s, e), p)
  {
    var t := Step(ready, s, e);
    assert Covered(ready, s, p);
    Others(ready, s, e, p);
    Shared(ready, s, e);
    if t.procs[p] == s.procs[p] {
      match s.procs[p]
      case WantTable(c) => assert HasLk(s.procs[p]) && HasLk(s.procs[e.p]) ==> s.lk == Some(p) && s.lk == Some(e.p);
      case HasTable(c) => assert HasLk(s.procs[p]) && HasLk(s.procs[e.p]) ==> s.lk == Some(p) && s.lk == Some(e.p);
      case LetGo(c) =>
        assert HasPtable(s.procs[p]) && HasPtable(s.procs[e.p]) ==> s.table == Some(p) && s.table == Some(e.p);
      case Asleep(c) => CoveredAsleep(ready, s, e, p);
      case _ =>
    }
  }

  lemma CoveredAsleep<X, C(!new)>(ready: Ready<X, C>, s: State<X, C>, e: Event<X, C>, p: nat)
    requires Inv(ready, s) && e.p < |s.procs| && p < |s.procs| && p != e.p
    requires s.procs[p].Asleep? && Step(ready, s, e).procs[p] == s.procs[p]
    ensures Covered(ready, Step(ready, s, e), p)
  {
    var t, c := Step(ready, s, e), s.procs[p].chan;
    assert Covered(ready, s, p);
    Shared(ready, s, e);
    if ready(c, t.x) {
      forall q | 0 <= q < |t.procs| && t.procs[q].Scan? && t.procs[q].chan == c
        ensures t.procs[q].i <= p
      {
        ScanBound(ready, s, e, p, q);
      }
    }
  }

  lemma ScanBound<X, C(!new)>(ready: Ready<X, C>, s: State<X, C>, e: Event<X, C>, p: nat, q: nat)
    requires Inv(ready, s) && e.p < |s.procs| && p < |s.procs| && p != e.p && q < |s.procs|
    requires s.procs[p].Asleep? && Step(ready, s, e).procs[p] == s.procs[p]
    requires
      var t := Step(ready, s, e);
      t.procs[q].Scan? && t.procs[q].chan == s.procs[p].chan && ready(s.procs[p].chan, t.x)
    ensures Step(ready, s, e).procs[q].i <= p
  {
    assert Covered(ready, s, p);
    if q != e.p {
      Others(ready, s, e, q);
      Shared(ready, s, e);
      assert HasLk(s.procs[q]) && HasLk(s.procs[e.p]) ==> s.lk == Some(q) && s.lk == Some(e.p);
    }
  }

  /** Every step keeps the invariant. */
  lemma StepInv<X, C(!new)>(ready: Ready<X, C>, s: State<X, C>, e: Event<X, C>)
    requires Inv(ready, s)
    ensures Inv(ready, Step(ready, s, e))
  {
    hide Covered;
    var t := Step(ready, s, e);
    StepLocks(ready, s, e);
    if e.p < |s.procs| {
      forall p | 0 <= p < |t.procs|
        ensures Covered(ready, t, p)
      {
        if p == e.p {
          CoveredSelf(ready, s, e);
        } else {
          Others(ready, s, e, p);
          CoveredOther(ready, s, e, p);
        }
      }
    }
  }

  lemma InvNoLost<X, C(!new)>(ready: Ready<X, C>, s: State<X, C>)
    requires Inv(ready, s)
    ensures NoLostWakeup(ready, s)
  {
    if s.lk == None {
      forall p | 0 <= p < |s.procs| && s.procs[p].Asleep?
        ensures !ready(s.procs[p].chan, s.x)
      {
        assert Covered(ready, s, p);
      }
    }
  }

  /** No lost wakeup, in every interleaving. */
  lemma {:induction false} NeverLost<X, C(!new)>(ready: Ready<X, C>, x: X, n: nat, es: seq<Event<X, C>>)
    ensures Inv(ready, Run(ready, Init(x, n), es)) && NoLostWakeup(ready, Run(ready, Init(x, n), es))
    decreases |es|
  {
    if es != [] {
      NeverLost(ready, x, n, es[..|es|-1]);
      StepInv(ready, Run(ready, Init(x, n), es[..|es|-1]), es[|es|-1]);
    }
    InvNoLost(ready, Run(ready, Init(x, n), es));
  }

  // ----- what wakeup does when it runs to its end

  function ScanEvents<X, C(==)>(p: nat, n: nat): seq<Event<X, C>> {
    seq(n, _ => WakeupScan(p))
  }

  /** wakeup by p on channel c, with n entries in the process table. */
  function WakeupEvents<X, C(==)>(p: nat, c: C, n: nat): seq<Event<X, C>> {
    [Wakeup(p, c), WakeupTable(p)] + ScanEvents(p, n) + [WakeupDone(p)]
  }

  /** The process table when p has scanned its first k entries. */
  function Scanned<C(==)>(procs: seq<Pc<C>>, p: nat, c: C, k: nat): seq<Pc<C>> {
    seq(|procs|, q requires 0 <= q < |procs| =>
      if q == p then Scan(c, k) else if q < k && procs[q] == Asleep(c) then Woken else procs[q])
  }

  /** The sleepers on c are woken. */
  function AllWoken<C(==)>(procs: seq<Pc<C>>, c: C): seq<Pc<C>> {
    seq(|procs|, q requires 0 <= q < |procs| => if procs[q] == Asleep(c) then Woken else procs[q])
  }

  lemma ScanStep<X, C(!new)>(ready: Ready<X, C>, s: State<X, C>, p: nat, c: C, k: nat)
    requires p < |s.procs| && 0 < k <= |s.procs|
    ensures Step(ready, s.(procs := Scanned(s.procs, p, c, k - 1)), WakeupScan(p))
         == s.(procs := Scanned(s.procs, p, c, k))
  {
    var t := s.(procs := Scanned(s.procs, p, c, k - 1));
    assert t.procs[p] == Scan(c, k - 1);
    assert Step(ready, t, WakeupScan(p)).procs == Scanned(s.procs, p, c, k);
  }

  lemma {:induction false} ScanRun<X, C(!new)>(ready: Ready<X, C>, s: State<X, C>, p: nat, c: C, k: nat)
    requires p < |s.procs| && s.procs[p] == Scan(c, 0) && k <= |s.procs|
    ensures Run(ready, s, ScanEvents(p, k)) == s.(procs := Scanned(s.procs, p, c, k))
  {
    hide Step;
    var es := ScanEvents<X, C>(p, k);
    if k == 0 {
      assert Scanned(s.procs, p, c, 0) == s.procs;
    } else {
      ScanRun(ready, s, p, c, k - 1);
      assert es[..|es|-1] == ScanEvents(p, k - 1);
      ScanStep(ready, s, p, c, k);
    }
  }

  lemma RunOne<X, C(!new)>(ready: Ready<X, C>, s: State<X, C>, e: Event<X, C>)
    ensures Run(ready, s, [e]) == Step(ready, s, e)
  {
    hide Step;
    assert [e][..0] == [];
  }

  lemma RunPair<X, C(!new)>(ready: Ready<X, C>, s: State<X, C>, e: Event<X, C>, f: Event<X, C>)
    ensures Run(ready, s, [e, f]) == Step(ready, Step(ready, s, e), f)
  {
    hide Step;
    assert [e, f][..1] == [e];
    RunOne(ready, s, e);
  }

  lemma WakeupBegins<X, C(!new)>(ready: Ready<X, C>, s: State<X, C>, p: nat, c: C)
    requires p < |s.procs| && s.procs[p].Inside? && s.table == None
    ensures Step(ready, Step(ready, s, Wakeup(p, c)), WakeupTable(p)) == With(s, p, Scan(c, 0)).(table := Some(p))
  {
    assert Step(ready, s, Wakeup(p, c)) == With(s, p, WantScan(c));
  }

  lemma WakeupEnds<X, C(!new)>(ready: Ready<X, C>, s: State<X, C>, t: State<X, C>, p: nat, c: C)
    requires p < |s.procs| && s.procs[p].Inside? && s.table == None
    requires t == s.(procs := Scanned(s.procs, p, c, |s.procs|), table := Some(p))
    ensures Step(ready, t, WakeupDone(p)) == s.(procs := AllWoken(s.procs, c), due := s.due - {c})
  {
    assert With(t, p, Inside).procs == AllWoken(s.procs, c);
  }

  lemma {:induction false} RunTwo<X, C(!new)>(ready: Ready<X, C>, s: State<X, C>, a: seq<Event<X, C>>,
                                              b: seq<Event<X, C>>)
    ensures Run(ready, s, a + b) == Run(ready, Run(ready, s, a), b)
    decreases |b|
  {
    if b == [] {
      assert a + b == a;
    } else {
      RunTwo(ready, s, a, b[..|b|-1]);
      assert (a + b)[..|a + b|-1] == a + b[..|b|-1];
    }
  }

  /** wakeup, run to its end by the holder of lk while the table lock is free, wakes exactly the
      processes asleep on its channel; then nothing is due on it. */
  lemma WakeupWakes<X, C(!new)>(ready: Ready<X, C>, s: State<X, C>, p: nat, c: C)
    requires p < |s.procs| && s.procs[p].Inside? && s.table == None
    ensures Run(ready, s, WakeupEvents(p, c, |s.procs|)) == s.(procs := AllWoken(s.procs, c), due := s.due - {c})
  {
    hide Step, Run;
    var n := |s.procs|;
    var scans, last: seq<Event<X, C>> := ScanEvents<X, C>(p, n), [WakeupDone(p)];
    RunTwo(ready, s, [Wakeup(p, c), WakeupTable(p)] + scans, last);
    RunTwo(ready, s, [Wakeup(p, c), WakeupTable(p)], scans);
    RunPair(ready, s, Wakeup(p, c), WakeupTable(p));
    WakeupBegins(ready, s, p, c);
    var s2 := With(s, p, Scan(c, 0)).(table := Some(p));
    ScanRun(ready, s2, p, c, n);
    assert Scanned(s2.procs, p, c, n) == Scanned(s.procs, p, c, n);
    var s3 := s2.(procs := Scanned(s2.procs, p, c, n));
    RunOne(ready, s3, WakeupDone(p));
    WakeupEnds(ready, s, s3, p, c);
  }

  /** sleep by the holder of lk, who owes nothing and found the condition false, run to its end while
      the table lock is free: it is asleep and both locks are free. */
  lemma SleepSleeps<X, C(!new)>(ready: Ready<X, C>, s: State<X, C>, p: nat, c: C)
    requires p < |s.procs| && s.procs[p].Inside? && s.due == {} && !ready(c, s.x) && s.table == None
    ensures Run(ready, s, [Sleep(p, c), SleepTable(p)] + [SleepRelease(p), SleepSet(p)])
         == With(s, p, Asleep(c)).(lk := None)
  {
    RunTwo(ready, s, [Sleep(p, c), SleepTable(p)], [SleepRelease(p), SleepSet(p)]);
    RunPair(ready, s, Sleep(p, c), SleepTable(p));
    var s2 := With(s, p, HasTable(c)).(table := Some(p));
    assert Step(ready, s, Sleep(p, c)) == With(s, p, WantTable(c));
    assert Step(ready, With(s, p, WantTable(c)), SleepTable(p)) == s2;
    RunPair(ready, s2, SleepRelease(p), SleepSet(p));
    assert Step(ready, s2, SleepRelease(p)) == With(s2, p, LetGo(c)).(lk := None);
  }

  /** A woken process gets the lock back as soon as it is free. */
  lemma WokenReturns<X, C(!new)>(ready: Ready<X, C>, s: State<X, C>, p: nat)
    requires p < |s.procs| && s.procs[p].Woken? && s.lk == None
    ensures Step(ready, s, Reacquire(p)) == With(s, p, Inside).(lk := Some(p))
  {}

  /** kill wakes a sleeper whatever it waits for. */
  lemma KillWakes<X, C(!new)>(ready: Ready<X, C>, s: State<X, C>, p: nat)
    requires p < |s.procs| && s.procs[p].Asleep? && s.table == None
    ensures Step(ready, s, Kill(p)) == With(s, p, Woken)
  {}
}
