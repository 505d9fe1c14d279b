/** pipewrite, piperead and pipeclose (pipe.c) by any number of processes, as interleaved steps on
    top of sleep and wakeup. One byte is one step: the pipe lock is held throughout. */
module PipeProtocol {
  import opened Common
  import opened SleepWakeup
  import opened PipeRing

  datatype Chan = ReadChan | WriteChan

  datatype Role =
    | Idle
    | Writer(bytes: seq<Byte>, i: nat)   // in pipewrite, bytes[..i] are in the pipe
    | Reader(n: nat, got: seq<Byte>)     // in piperead, got is copied out

  /** killed: processes with p->killed set. spoiled: a failing call has skipped a wakeup that a
      reader was waiting for. */
  datatype Machine = Machine(s: State<Pipe, Chan>, roles: seq<Role>, killed: set<nat>, spoiled: bool,
                             accepted: seq<Byte>, delivered: seq<Byte>)

  datatype Event =
    | StartWrite(p: nat, bytes: seq<Byte>)
    | StartRead(p: nat, n: nat)
    | PutByte(p: nat)
    | GetByte(p: nat)
    | Finish(p: nat)       // release and return a count
    | Fail(p: nat)         // release and return -1
    | CloseWrite(p: nat)
    | CloseRead(p: nat)
    | Kill(p: nat)
    | Kernel(e: SleepWakeup.Event<Pipe, Chan>)

  /** What a sleeper on the channel waits for. A reader waits only while the read end is open. */
  function Ready(c: Chan, x: Pipe): bool {
    match c
    case ReadChan => x.readopen && (!Empty(x) || !x.writeopen)
    case WriteChan => !Full(x) || !x.readopen
  }

  predicate At(m: Machine, p: nat) {
    p < |m.roles| && p < |m.s.procs|
  }

  predicate Holding(m: Machine, p: nat) {
    At(m, p) && m.s.procs[p].Inside?
  }

  predicate CanPut(m: Machine, p: nat) {
    Holding(m, p) && m.roles[p].Writer? && m.roles[p].i < |m.roles[p].bytes| && !Full(m.s.x) && |m.s.x.data| == PIPESIZE
  }

  predicate CanGet(m: Machine, p: nat) {
    Holding(m, p) && m.roles[p].Reader? && |m.roles[p].got| < m.roles[p].n && !Empty(m.s.x) && |m.s.x.data| == PIPESIZE
  }

  predicate CanFinish(m: Machine, p: nat) {
    && Holding(m, p)
    && (match m.roles[p]
        case Idle => false
        case Writer(bytes, i) => i >= |bytes|
        case Reader(n, got) => (|got| >= n || Empty(m.s.x)) && (got != [] || !Empty(m.s.x) || !m.s.x.writeopen))
  }

  predicate CanFail(m: Machine, p: nat) {
    && Holding(m, p)
    && (match m.roles[p]
        case Idle => false
        case Writer(bytes, i) => i < |bytes| && Full(m.s.x) && (!m.s.x.readopen || p in m.killed)
        case Reader(n, got) => got == [] && Empty(m.s.x) && m.s.x.writeopen && p in m.killed)
  }

  /** Some reader sleeps, or is past its test and about to. */
  ghost predicate ReaderDozes(s: State<Pipe, Chan>) {
    exists q :: 0 <= q < |s.procs| && Dozes(s.procs[q])
  }

  predicate Dozes(pc: Pc<Chan>) {
    pc == Asleep(ReadChan) || pc == LetGo(ReadChan)
  }

  /** An end is closed by a process that is in no call on the pipe, when nobody is in a call on
      that end: file reference counts see to it. */
  predicate CanCloseWrite(m: Machine, p: nat) {
    Holding(m, p) && m.roles[p].Idle? && forall q :: 0 <= q < |m.roles| ==> !m.roles[q].Writer?
  }

  predicate CanCloseRead(m: Machine, p: nat) {
    Holding(m, p) && m.roles[p].Idle? && forall q :: 0 <= q < |m.roles| ==> !m.roles[q].Reader?
  }

  /** sleep is called only from the two wait loops. */
  predicate MaySleep(m: Machine, p: nat, c: Chan) {
    && At(m, p)
    && (match c
        case ReadChan => m.roles[p].Reader? && m.roles[p].got == []
        case WriteChan => m.roles[p].Writer? && m.roles[p].i < |m.roles[p].bytes|)
  }

  predicate Allowed(m: Machine, k: SleepWakeup.Event<Pipe, Chan>) {
    match k
    case Update(_, _, _) => false
    case Kill(_) => false
    case Release(p) => p < |m.roles| && m.roles[p].Idle?
    case Sleep(p, c) => MaySleep(m, p, c)
    case _ => true
  }

  function PutAnnounce(x: Pipe): set<Chan> {
    if x.readopen then {ReadChan} else {}
  }

  ghost function DoUpdate(s: State<Pipe, Chan>, p: nat, x: Pipe, announce: set<Chan>): State<Pipe, Chan> {
    SleepWakeup.Step(Ready, s, Update(p, x, announce))
  }

  ghost function Step(m: Machine, e: Event): Machine {
    match e
    case StartWrite(p, bytes) =>
      if At(m, p) && m.s.procs[p].Outside? && m.roles[p].Idle? && m.s.x.writeopen
      then m.(roles := m.roles[p := Writer(bytes, 0)]) else m
    case StartRead(p, n) =>
      if At(m, p) && m.s.procs[p].Outside? && m.roles[p].Idle? && m.s.x.readopen
      then m.(roles := m.roles[p := Reader(n, [])]) else m
    case PutByte(p) =>
      if CanPut(m, p) then
        var r := m.roles[p];
        m.(s := DoUpdate(m.s, p, Put(m.s.x, r.bytes[r.i]), PutAnnounce(m.s.x)),
           roles := m.roles[p := r.(i := r.i + 1)], accepted := m.accepted + [r.bytes[r.i]])
      else m
    case GetByte(p) =>
      if CanGet(m, p) then
        var r, b := m.roles[p], m.s.x.data[Spot(m.s.x.nread)];
        m.(s := DoUpdate(m.s, p, Get(m.s.x), {WriteChan}),
           roles := m.roles[p := r.(got := r.got + [b])], delivered := m.delivered + [b])
      else m
    case Finish(p) =>
      if CanFinish(m, p) && m.s.due == {}
      then m.(s := SleepWakeup.Step(Ready, m.s, Release(p)), roles := m.roles[p := Idle])
      else m
    case Fail(p) =>
      if CanFail(m, p) then
        m.(s := With(m.s, p, Outside).(lk := None, due := {}), roles := m.roles[p := Idle],
           spoiled := m.spoiled || (m.s.due != {} && ReaderDozes(m.s)))
      else m
    case CloseWrite(p) =>
      if CanCloseWrite(m, p) then m.(s := DoUpdate(m.s, p, m.s.x.(writeopen := false), {ReadChan})) else m
    case CloseRead(p) =>
      if CanCloseRead(m, p) then m.(s := DoUpdate(m.s, p, m.s.x.(readopen := false), {WriteChan})) else m
    case Kill(p) =>
      if At(m, p) && m.s.table == None
      then m.(s := SleepWakeup.Step(Ready, m.s, SleepWakeup.Kill(p)), killed := m.killed + {p}) else m
    case Kernel(k) => if Allowed(m, k) then m.(s := SleepWakeup.Step(Ready, m.s, k)) else m
  }

  ghost function Run(m: Machine, es: seq<Event>): Machine
    decreases |es|
  {
    if es == [] then m else Step(Run(m, es[..|es|-1]), es[|es|-1])
  }

  /** A fresh pipe (pipealloc) shared by n processes. */
  function Start(n: nat): Machine {
    Machine(Init(Pipe(seq(PIPESIZE, _ => 0), 0, 0, true, true), n), seq(n, _ => Idle), {}, false, [], [])
  }

  // ----- what every step keeps

  predicate Queued(m: Machine) {
    Fifo(m.s.x, m.accepted, m.delivered)
  }

  /** A process inside sleep is in the wait loop of that channel. */
  predicate RoleChan(m: Machine, p: nat)
    requires At(m, p)
  {
    match m.s.procs[p]
    case WantTable(c) => InLoop(m.roles[p], c)
    case HasTable(c) => InLoop(m.roles[p], c)
    case LetGo(c) => InLoop(m.roles[p], c)
    case Asleep(c) => InLoop(m.roles[p], c)
    case _ => true
  }

  predicate InLoop(r: Role, c: Chan) {
    match c
    case ReadChan => r.Reader?
    case WriteChan => r.Writer?
  }

  predicate Tracked(m: Machine) {
    && |m.roles| == |m.s.procs|
    && (forall p :: 0 <= p < |m.roles| ==> RoleChan(m, p))
    && (forall p :: 0 <= p < |m.roles| && m.roles[p].Reader? ==> m.s.x.readopen)
  }

  /** What the process that holds the lock may owe: a writer a wakeup to the readers, if there
      can be any; a reader one to the writers, once it has copied something. */
  predicate Owes(m: Machine, p: nat)
    requires p < |m.roles|
  {
    m.s.lk == Some(p) ==>
      && (m.roles[p].Writer? ==> m.s.due <= PutAnnounce(m.s.x))
      && (m.roles[p].Reader? && m.roles[p].got == [] ==> m.s.due == {})
  }

  predicate Owing(m: Machine) {
    |m.roles| == |m.s.procs| && forall p :: 0 <= p < |m.roles| ==> Owes(m, p)
  }

  lemma PutAnnounced(x: Pipe, b: Byte)
    requires |x.data| == PIPESIZE && !Full(x)
    ensures Announced(Ready, x, Put(x, b), PutAnnounce(x))
  {
    forall c: Chan
      ensures !Ready(c, x) && Ready(c, Put(x, b)) ==> c in PutAnnounce(x)
    {}
  }

  lemma GetAnnounced(x: Pipe)
    requires !Empty(x)
    ensures Announced(Ready, x, Get(x), {WriteChan})
  {
    forall c: Chan
      ensures !Ready(c, x) && Ready(c, Get(x)) ==> c in {WriteChan}
    {}
  }

  lemma CloseAnnounced(x: Pipe)
    ensures Announced(Ready, x, x.(writeopen := false), {ReadChan})
    ensures Announced(Ready, x, x.(readopen := false), {WriteChan})
  {
    forall c: Chan
      ensures Ready(c, x.(writeopen := false)) && !Ready(c, x) ==> c in {ReadChan}
      ensures Ready(c, x.(readopen := false)) && !Ready(c, x) ==> c in {WriteChan}
    {}
  }

  /** The bytes stay in order in every step, killed writers or not. */
  lemma StepQueued(m: Machine, e: Event)
    requires Queued(m)
    ensures Queued(Step(m, e))
  {
    hide Fifo, Full, Empty, SleepWakeup.Step;
    StepRing(m, e);
    match e
    case PutByte(p) =>
      if CanPut(m, p) { PutFifo(m.s.x, m.roles[p].bytes[m.roles[p].i], m.accepted, m.delivered); }
    case GetByte(p) =>
      if CanGet(m, p) { GetFifo(m.s.x, m.accepted, m.delivered); }
    case CloseWrite(p) => SameQueue(m, Step(m, e));
    case CloseRead(p) => SameQueue(m, Step(m, e));
    case _ => SameQueue(m, Step(m, e));
  }

  lemma SameQueue(m: Machine, m': Machine)
    requires Queued(m) && m'.accepted == m.accepted && m'.delivered == m.delivered
    requires m'.s.x.data == m.s.x.data && m'.s.x.nread == m.s.x.nread && m'.s.x.nwrite == m.s.x.nwrite
    ensures Queued(m')
  {}

  /** What each event does to the shared record. */
  lemma StepRing(m: Machine, e: Event)
    ensures
      var x' := Step(m, e).s.x;
      match e
      case PutByte(p) => CanPut(m, p) ==> x' == Put(m.s.x, m.roles[p].bytes[m.roles[p].i])
      case GetByte(p) => CanGet(m, p) ==> x' == Get(m.s.x)
      case CloseWrite(p) => x' == if CanCloseWrite(m, p) then m.s.x.(writeopen := false) else m.s.x
      case CloseRead(p) => x' == if CanCloseRead(m, p) then m.s.x.(readopen := false) else m.s.x
      case _ => x' == m.s.x
  {
    hide Full, Empty, Put, Get, Announced;
    match e
    case PutByte(p) => if CanPut(m, p) { PutAnnounced(m.s.x, m.roles[p].bytes[m.roles[p].i]); }
    case GetByte(p) => if CanGet(m, p) { GetAnnounced(m.s.x); }
    case CloseWrite(_) => CloseAnnounced(m.s.x);
    case CloseRead(_) => CloseAnnounced(m.s.x);
    case _ =>
  }

  /** What a step does to the process table: only e's own process moves, others may be woken. */
  lemma Moves(s: State<Pipe, Chan>, k: SleepWakeup.Event<Pipe, Chan>, q: nat)
    requires q < |s.procs|
    ensures
      var t := SleepWakeup.Step(Ready, s, k);
      && |t.procs| == |s.procs|
      && (q != k.p ==> t.procs[q] == s.procs[q] || (s.procs[q].Asleep? && t.procs[q] == Woken))
      && (q == k.p && k.Sleep? ==> t.procs[q] == s.procs[q] || t.procs[q] == WantTable(k.chan))
      && (q == k.p && !k.Sleep? ==> SameChan(t.procs[q], s.procs[q]))
  {
    if q != k.p {
      Others(Ready, s, k, q);
    }
  }

  /** A process inside sleep was there before, on the same channel. */
  predicate SameChan(pc': Pc<Chan>, pc: Pc<Chan>) {
    match pc'
    case HasTable(c) => pc == WantTable(c) || pc == pc'
    case LetGo(c) => pc == HasTable(c) || pc == pc'
    case Asleep(c) => pc == LetGo(c) || pc == pc'
    case WantTable(c) => pc == pc'
    case _ => true
  }

  lemma StepTracked(m: Machine, e: Event)
    requires Tracked(m)
    ensures Tracked(Step(m, e))
  {
    hide SleepWakeup.Step, Full, Empty;
    StepRing(m, e);
    var m' := Step(m, e);
    StepSize(m, e);
    forall p | 0 <= p < |m'.roles|
      ensures RoleChan(m', p)
    {
      assert RoleChan(m, p);
      TrackedAt(m, e, p);
    }
  }

  lemma StepSize(m: Machine, e: Event)
    ensures |Step(m, e).roles| == |m.roles| && |Step(m, e).s.procs| == |m.s.procs|
  {}

  lemma TrackedAt(m: Machine, e: Event, p: nat)
    requires At(m, p) && RoleChan(m, p) && |Step(m, e).roles| == |m.roles| && |Step(m, e).s.procs| == |m.s.procs|
    ensures RoleChan(Step(m, e), p)
  {
    hide SleepWakeup.Step, Full, Empty, Put, Get;
    match e
    case StartWrite(_, _) =>
    case StartRead(_, _) =>
    case PutByte(q) =>
      if CanPut(m, q) {
        Moves(m.s, Update(q, Put(m.s.x, m.roles[q].bytes[m.roles[q].i]), PutAnnounce(m.s.x)), p);
      }
    case GetByte(q) => Moves(m.s, Update(q, Get(m.s.x), {WriteChan}), p);
    case Finish(q) => Released(m, q); Moves(m.s, Release(q), p);
    case Fail(_) =>
    case CloseWrite(q) => Moves(m.s, Update(q, m.s.x.(writeopen := false), {ReadChan}), p);
    case CloseRead(q) => Moves(m.s, Update(q, m.s.x.(readopen := false), {WriteChan}), p);
    case Kill(q) => Moves(m.s, SleepWakeup.Kill(q), p);
    case Kernel(k) => Moves(m.s, k, p);
  }

  lemma Released(m: Machine, p: nat)
    ensures Holding(m, p) && m.s.due == {} ==>
      SleepWakeup.Step(Ready, m.s, Release(p)) == With(m.s, p, Outside).(lk := None)
  {}

  /** Every step keeps the lock discipline, killed writers or not. */
  lemma StepGuarded(m: Machine, e: Event)
    requires Locks(m.s) && DueHeld(m.s)
    ensures Locks(Step(m, e).s) && DueHeld(Step(m, e).s)
  {
    hide SleepWakeup.Step, Full, Empty, Put, Get;
    match e
    case StartWrite(_, _) =>
    case StartRead(_, _) =>
    case PutByte(p) =>
      if CanPut(m, p) {
        StepLocks(Ready, m.s, Update(p, Put(m.s.x, m.roles[p].bytes[m.roles[p].i]), PutAnnounce(m.s.x)));
      }
    case GetByte(p) => StepLocks(Ready, m.s, Update(p, Get(m.s.x), {WriteChan}));
    case Finish(p) => StepLocks(Ready, m.s, Release(p));
    case Fail(p) => if CanFail(m, p) { assert HasLk(m.s.procs[p]); }
    case CloseWrite(p) => StepLocks(Ready, m.s, Update(p, m.s.x.(writeopen := false), {ReadChan}));
    case CloseRead(p) => StepLocks(Ready, m.s, Update(p, m.s.x.(readopen := false), {WriteChan}));
    case Kill(p) => StepLocks(Ready, m.s, SleepWakeup.Kill(p));
    case Kernel(k) => StepLocks(Ready, m.s, k);
  }

  lemma LkReleased(s: State<Pipe, Chan>, p: nat)
    requires Locks(s) && p < |s.procs| && s.procs[p].Inside?
    ensures
      var t := With(s, p, Outside).(lk := None, due := {});
      Locks(t) && DueHeld(t)
  {
    assert HasLk(s.procs[p]);
  }

  /** A failing writer that owes a wakeup leaves a pipe that is ready for readers. */
  lemma OwedReady(m: Machine, p: nat)
    requires Queued(m) && Locks(m.s) && Owing(m) && CanFail(m, p)
    ensures m.s.due != {} ==> m.s.due == {ReadChan} && !Ready(WriteChan, m.s.x) && Ready(ReadChan, m.s.x)
  {
    assert HasLk(m.s.procs[p]);
    assert Owes(m, p);
    Tests(m.s.x, m.accepted, m.delivered);
  }

  /** A return of -1 keeps the invariant of sleep and wakeup exactly when it skips no wakeup, or
      no reader is there to miss it. */
  lemma FailExact(m: Machine, p: nat)
    requires Queued(m) && Inv(Ready, m.s) && Owing(m) && CanFail(m, p)
    ensures Inv(Ready, Step(m, Fail(p)).s) <==> m.s.due == {} || !ReaderDozes(m.s)
  {
    var t := Step(m, Fail(p)).s;
    OwedReady(m, p);
    LkReleased(m.s, p);
    hide Full, Empty, Ready;
    if m.s.due == {} {
      assert t == SleepWakeup.Step(Ready, m.s, Release(p));
      StepInv(Ready, m.s, Release(p));
    } else if ReaderDozes(m.s) {
      var q :| 0 <= q < |m.s.procs| && Dozes(m.s.procs[q]);
      assert t.procs[q] == m.s.procs[q];
      assert !Covered(Ready, t, q);
    } else {
      FailQuiet(m, p);
    }
  }

  lemma FailQuiet(m: Machine, p: nat)
    requires Inv(Ready, m.s) && CanFail(m, p) && !ReaderDozes(m.s) && !Ready(WriteChan, m.s.x)
    requires
      var t := Step(m, Fail(p)).s;
      Locks(t) && DueHeld(t)
    ensures Inv(Ready, Step(m, Fail(p)).s)
  {
    hide Full, Empty, Ready;
    var t := Step(m, Fail(p)).s;
    forall q | 0 <= q < |t.procs|
      ensures !HasLk(t.procs[q]) && !Dozes(t.procs[q])
    {
      assert HasLk(t.procs[q]) <==> t.lk == Some(q);
      assert q != p ==> !Dozes(m.s.procs[q]);
    }
    forall q | 0 <= q < |t.procs|
      ensures Covered(Ready, t, q)
    {
      assert !HasLk(t.procs[q]) && !Dozes(t.procs[q]);
      match t.procs[q]
      case LetGo(c) => assert c == WriteChan;
      case Asleep(c) => assert c == WriteChan;
      case _ =>
    }
  }

  /** due grows only by an update, and is empty for whoever takes the lock. */
  lemma DueStep(s: State<Pipe, Chan>, k: SleepWakeup.Event<Pipe, Chan>)
    requires DueHeld(s) && !k.Update?
    ensures
      var t := SleepWakeup.Step(Ready, s, k);
      t.due <= s.due && (t.lk.Some? ==> t.lk == s.lk || t.due == {})
  {}

  lemma PutDue(s: State<Pipe, Chan>, p: nat, x: Pipe, announce: set<Chan>)
    ensures
      var t := DoUpdate(s, p, x, announce);
      t.lk == s.lk && (t.due == s.due || t.due == s.due + announce) && (t.x == s.x || t.x == x)
  {}

  lemma StepOwing(m: Machine, e: Event)
    requires Locks(m.s) && DueHeld(m.s) && Owing(m)
    ensures Owing(Step(m, e))
  {
    hide SleepWakeup.Step, Full, Empty, RoleChan, DoUpdate, Owes;
    StepSize(m, e);
    var m' := Step(m, e);
    forall p | 0 <= p < |m.roles|
      ensures Owes(m', p)
    {
      assert Owes(m, p);
      StepOwes(m, e, p);
    }
  }

  lemma StepOwes(m: Machine, e: Event, p: nat)
    requires Locks(m.s) && DueHeld(m.s) && |m.roles| == |m.s.procs| && p < |m.roles| && Owes(m, p)
    requires |Step(m, e).roles| == |m.roles|
    ensures Owes(Step(m, e), p)
  {
    hide SleepWakeup.Step, Full, Empty, DoUpdate;
    StepRing(m, e);
    assert HasLk(m.s.procs[p]) <==> m.s.lk == Some(p);
    match e
    case StartWrite(_, _) =>
    case StartRead(_, _) =>
    case PutByte(q) =>
      if CanPut(m, q) {
        assert HasLk(m.s.procs[q]) <==> m.s.lk == Some(q);
        PutDue(m.s, q, Put(m.s.x, m.roles[q].bytes[m.roles[q].i]), PutAnnounce(m.s.x));
      }
    case GetByte(q) =>
      if CanGet(m, q) {
        assert HasLk(m.s.procs[q]) <==> m.s.lk == Some(q);
        PutDue(m.s, q, Get(m.s.x), {WriteChan});
      }
    case Finish(q) => DueStep(m.s, Release(q));
    case Fail(q) =>
    case CloseWrite(q) =>
      if Holding(m, q) {
        assert HasLk(m.s.procs[q]) <==> m.s.lk == Some(q);
        PutDue(m.s, q, m.s.x.(writeopen := false), {ReadChan});
      }
    case CloseRead(q) =>
      if Holding(m, q) {
        assert HasLk(m.s.procs[q]) <==> m.s.lk == Some(q);
        PutDue(m.s, q, m.s.x.(readopen := false), {WriteChan});
      }
    case Kill(q) => DueStep(m.s, SleepWakeup.Kill(q));
    case Kernel(k) => if Allowed(m, k) { DueStep(m.s, k); }
  }

  /** Every step keeps the invariant of sleep and wakeup, except a failing return that skips the
      wakeup of a waiting reader; and that one always breaks it. */
  lemma StepCovered(m: Machine, e: Event)
    requires Queued(m) && Inv(Ready, m.s) && Owing(m) && !m.spoiled
    ensures Inv(Ready, Step(m, e).s) <==> !Step(m, e).spoiled
  {
    hide SleepWakeup.Step, Inv, Full, Empty, Put, Get;
    match e
    case StartWrite(_, _) =>
    case StartRead(_, _) =>
    case PutByte(p) =>
      if CanPut(m, p) {
        StepInv(Ready, m.s, Update(p, Put(m.s.x, m.roles[p].bytes[m.roles[p].i]), PutAnnounce(m.s.x)));
      }
    case GetByte(p) => StepInv(Ready, m.s, Update(p, Get(m.s.x), {WriteChan}));
    case Finish(p) => StepInv(Ready, m.s, Release(p));
    case Fail(p) =>
      if CanFail(m, p) {
        FailExact(m, p);
      }
    case CloseWrite(p) => StepInv(Ready, m.s, Update(p, m.s.x.(writeopen := false), {ReadChan}));
    case CloseRead(p) => StepInv(Ready, m.s, Update(p, m.s.x.(readopen := false), {WriteChan}));
    case Kill(p) => StepInv(Ready, m.s, SleepWakeup.Kill(p));
    case Kernel(k) => StepInv(Ready, m.s, k);
  }

  /** Nobody sleeps in vain: a sleeping reader faces an empty open pipe, a sleeping writer a full
      one that can be read. */
  predicate NobodyStranded(m: Machine) {
    m.s.lk == None ==>
      forall p :: 0 <= p < |m.s.procs| && m.s.procs[p].Asleep? ==>
        match m.s.procs[p].chan
        case ReadChan => Empty(m.s.x) && m.s.x.writeopen
        case WriteChan => Full(m.s.x) && m.s.x.readopen
  }

  lemma SleepersWait(m: Machine)
    requires Inv(Ready, m.s) && Tracked(m)
    ensures NobodyStranded(m)
  {
    InvNoLost(Ready, m.s);
    if m.s.lk == None {
      forall p | 0 <= p < |m.s.procs| && m.s.procs[p].Asleep?
        ensures !Ready(m.s.procs[p].chan, m.s.x) && (m.s.procs[p].chan == ReadChan ==> m.s.x.readopen)
      {
        assert RoleChan(m, p);
      }
    }
  }

  ghost predicate Safe(m: Machine) {
    && Queued(m) && m.delivered <= m.accepted
    && (m.s.x.nwrite - m.s.x.nread) % UINT == |m.accepted| - |m.delivered| <= PIPESIZE
    && Locks(m.s) && DueHeld(m.s) && Tracked(m) && Owing(m)
    && (!m.spoiled ==> Inv(Ready, m.s) && NobodyStranded(m))
  }

  /** In every interleaving of any number of readers, writers and closers: the bytes delivered
      are a prefix of the bytes accepted, the 32-bit counters differ by the bytes in between, at
      most PIPESIZE, and at most one process is inside the lock. Nobody is stranded, unless a
      killed writer has returned without the wakeup of a waiting reader. */
  lemma {:induction false} PipeSafe(n: nat, es: seq<Event>)
    ensures Safe(Run(Start(n), es))
    decreases |es|
  {
    hide Inv, Ready, Full, Empty, Locks, DueHeld, Step, Tracked, Owing, NobodyStranded;
    var m := Run(Start(n), es);
    if es == [] {
      StartGood(n);
    } else {
      PipeSafe(n, es[..|es|-1]);
      var m0, e := Run(Start(n), es[..|es|-1]), es[|es|-1];
      StepQueued(m0, e);
      StepGuarded(m0, e);
      StepTracked(m0, e);
      StepOwing(m0, e);
      if !m.spoiled {
        SpoiledStays(m0, e);
        StepCovered(m0, e);
      }
    }
    CounterGap(m.s.x, m.accepted, m.delivered);
    if !m.spoiled {
      SleepersWait(m);
    }
  }

  /** The exact condition, in every reachable state: a call that returns -1 leaves every sleeper
      covered if and only if it skips no wakeup or no reader waits; and if one does, then either
      a reader is stranded at once or it is about to be. */
  lemma FailingReturn(n: nat, es: seq<Event>, p: nat)
    requires
      var m := Run(Start(n), es);
      !m.spoiled && CanFail(m, p)
    ensures
      var m := Run(Start(n), es);
      && (Inv(Ready, Step(m, Fail(p)).s) <==> m.s.due == {} || !ReaderDozes(m.s))
      && (NobodyStranded(Step(m, Fail(p))) <==> m.s.due == {} || !ReaderAsleep(m.s))
      && (m.s.due != {} ==> m.roles[p].Writer? && p in m.killed)
  {
    var m := Run(Start(n), es);
    PipeSafe(n, es);
    FailExact(m, p);
    OwedReady(m, p);
    FailStrands(m, p);
  }

  ghost predicate ReaderAsleep(s: State<Pipe, Chan>) {
    exists q :: 0 <= q < |s.procs| && s.procs[q] == Asleep(ReadChan)
  }

  lemma FailStrands(m: Machine, p: nat)
    requires Queued(m) && Inv(Ready, m.s) && Tracked(m) && Owing(m) && CanFail(m, p)
    ensures NobodyStranded(Step(m, Fail(p))) <==> m.s.due == {} || !ReaderAsleep(m.s)
    ensures m.s.due != {} ==> m.roles[p].Writer? && p in m.killed
  {
    var t := Step(m, Fail(p));
    OwedReady(m, p);
    assert HasLk(m.s.procs[p]) && Owes(m, p);
    if m.s.due == {} {
      FailExact(m, p);
      StepTracked(m, Fail(p));
      SleepersWait(t);
    } else if ReaderAsleep(m.s) {
      var q :| 0 <= q < |m.s.procs| && m.s.procs[q] == Asleep(ReadChan);
      assert t.s.procs[q] == Asleep(ReadChan);
    } else {
      forall q | 0 <= q < |t.s.procs| && t.s.procs[q].Asleep?
        ensures t.s.procs[q].chan == WriteChan && Full(m.s.x) && m.s.x.readopen
      {
        assert t.s.procs[q] == m.s.procs[q];
      }
    }
  }

  lemma SpoiledStays(m: Machine, e: Event)
    ensures m.spoiled ==> Step(m, e).spoiled
  {}

  lemma CounterGap(x: Pipe, accepted: seq<Byte>, delivered: seq<Byte>)
    requires Fifo(x, accepted, delivered)
    ensures (x.nwrite - x.nread) % UINT == |accepted| - |delivered| <= PIPESIZE
  {}

  lemma StartGood(n: nat)
    ensures
      var m := Start(n);
      Queued(m) && Locks(m.s) && DueHeld(m.s) && Tracked(m) && Inv(Ready, m.s) && Owing(m)
  {}

  // ----- a killed writer does strand a reader

  lemma RunThen(m: Machine, es: seq<Event>, e: Event)
    ensures Run(m, es + [e]) == Step(Run(m, es), e)
  {
    assert (es + [e])[..|es|] == es;
  }

  function Zeros(n: nat): seq<Byte> {
    seq(n, _ => 0)
  }

  /** Process 0 reads and has gone to sleep; process 1 has written i of its 513 bytes. */
  function Filling(i: nat): Machine {
    Machine(State(Pipe(Zeros(PIPESIZE), 0, i, true, true), Some(1), None, [Asleep(ReadChan), Inside],
                  if i == 0 then {} else {ReadChan}),
            [Reader(1, []), Writer(Zeros(PIPESIZE + 1), i)], {}, false, Zeros(i), [])
  }

  lemma FillOne(i: nat)
    requires i < PIPESIZE
    ensures Step(Filling(i), PutByte(1)) == Filling(i + 1)
  {
    var m := Filling(i);
    assert CanPut(m, 1);
    PutAnnounced(m.s.x, 0);
    assert m.s.x.data[Spot(i) := 0] == m.s.x.data;
    assert Zeros(i) + [0] == Zeros(i + 1);
  }

  lemma {:induction false} FillUp(es: seq<Event>, i: nat) returns (more: seq<Event>)
    requires Run(Start(2), es) == Filling(0) && i <= PIPESIZE
    ensures Run(Start(2), more) == Filling(i)
  {
    if i == 0 {
      more := es;
    } else {
      hide Filling;
      var before := FillUp(es, i - 1);
      FillOne(i - 1);
      RunThen(Start(2), before, PutByte(1));
      more := before + [PutByte(1)];
    }
  }

  /** Process 0 is in piperead on the empty pipe, process 1 outside. */
  function Waiting(pc: Pc<Chan>, lk: Option<nat>, table: Option<nat>): Machine {
    Machine(State(Pipe(Zeros(PIPESIZE), 0, 0, true, true), lk, table, [pc, Outside], {}), [Reader(1, []), Idle], {},
            false, [], [])
  }

  lemma WaitingSteps()
    ensures Step(Waiting(Outside, None, None), Kernel(Acquire(0))) == Waiting(Inside, Some(0), None)
    ensures Step(Waiting(Inside, Some(0), None), Kernel(Sleep(0, ReadChan)))
         == Waiting(WantTable(ReadChan), Some(0), None)
  {}

  lemma SleepingSteps()
    ensures Step(Waiting(WantTable(ReadChan), Some(0), None), Kernel(SleepTable(0)))
         == Waiting(HasTable(ReadChan), Some(0), Some(0))
    ensures Step(Waiting(HasTable(ReadChan), Some(0), Some(0)), Kernel(SleepRelease(0)))
         == Waiting(LetGo(ReadChan), None, Some(0))
    ensures Step(Waiting(LetGo(ReadChan), None, Some(0)), Kernel(SleepSet(0))) == Waiting(Asleep(ReadChan), None, None)
  {}

  lemma WriterEnters(m: Machine)
    requires m == Waiting(Asleep(ReadChan), None, None)
    ensures Step(Step(m, StartWrite(1, Zeros(PIPESIZE + 1))), Kernel(Acquire(1))) == Filling(0)
  {
    assert Zeros(0) == [];
  }

  /** The reader falls asleep on the empty pipe and the writer takes the lock. */
  lemma ReaderFirst() returns (es: seq<Event>)
    ensures Run(Start(2), es) == Filling(0)
  {
    es := Then([], StartRead(0, 1));
    assert Run(Start(2), es) == Waiting(Outside, None, None);
    hide *;
    WaitingSteps();
    SleepingSteps();
    es := Then(es, Kernel(Acquire(0)));
    es := Then(es, Kernel(Sleep(0, ReadChan)));
    es := Then(es, Kernel(SleepTable(0)));
    es := Then(es, Kernel(SleepRelease(0)));
    es := Then(es, Kernel(SleepSet(0)));
    WriterEnters(Run(Start(2), es));
    es := Then(es, StartWrite(1, Zeros(PIPESIZE + 1)));
    es := Then(es, Kernel(Acquire(1)));
  }

  lemma Then(es: seq<Event>, e: Event) returns (es': seq<Event>)
    ensures es' == es + [e] && Run(Start(2), es') == Step(Run(Start(2), es), e)
  {
    RunThen(Start(2), es, e);
    es' := es + [e];
  }

  ghost predicate Stranded(m: Machine) {
    && m.spoiled && m.s.lk == None && Full(m.s.x)
    && |m.s.procs| == 2 && m.s.procs[0] == Asleep(ReadChan) && !NobodyStranded(m)
  }

  lemma KilledThenFails(m: Machine)
    requires m == Filling(PIPESIZE)
    ensures Stranded(Step(Step(m, Event.Kill(1)), Fail(1)))
  {
    assert Dozes(Step(m, Event.Kill(1)).s.procs[0]);
  }

  /** A writer killed when it has filled the pipe returns without its wakeup: the lock is free,
      the pipe is full and the reader sleeps on. */
  lemma KilledWriterStrands() returns (es: seq<Event>)
    ensures Stranded(Run(Start(2), es))
  {
    hide Step, Run, Filling, Stranded;
    es := ReaderFirst();
    es := FillUp(es, PIPESIZE);
    KilledThenFails(Run(Start(2), es));
    es := Then(es, Event.Kill(1));
    es := Then(es, Fail(1));
  }

  // ----- what a call has done when it returns

  /** p's last write call that began, from the events. */
  ghost function CallBytes(m: Machine, es: seq<Event>, p: nat): seq<Byte>
    decreases |es|
  {
    if es == [] then []
    else
      var before, e := es[..|es|-1], es[|es|-1];
      if e.StartWrite? && e.p == p && Step(Run(m, before), e) != Run(m, before) then e.bytes
      else CallBytes(m, before, p)
  }

  /** The bytes that the pipe accepted from p since then. */
  ghost function Sent(m: Machine, es: seq<Event>, p: nat): seq<Byte>
    decreases |es|
  {
    if es == [] then []
    else
      var before, e := es[..|es|-1], es[|es|-1];
      if e.StartWrite? && e.p == p && Step(Run(m, before), e) != Run(m, before) then []
      else if e == PutByte(p) then Sent(m, before, p) + New(Run(m, before).accepted, Run(m, es).accepted)
      else Sent(m, before, p)
  }

  /** The bytes delivered to p since its last read call began. */
  ghost function Received(m: Machine, es: seq<Event>, p: nat): seq<Byte>
    decreases |es|
  {
    if es == [] then []
    else
      var before, e := es[..|es|-1], es[|es|-1];
      if e.StartRead? && e.p == p && Step(Run(m, before), e) != Run(m, before) then []
      else if e == GetByte(p) then Received(m, before, p) + New(Run(m, before).delivered, Run(m, es).delivered)
      else Received(m, before, p)
  }

  /** What was added at the end. */
  function New(before: seq<Byte>, now: seq<Byte>): seq<Byte> {
    if |before| <= |now| then now[|before|..] else []
  }

  /** A call is as far as its events say. */
  ghost predicate CallOk(m: Machine, m0: Machine, es: seq<Event>, p: nat) {
    p < |m.roles| ==>
      match m.roles[p]
      case Idle => true
      case Writer(bytes, i) => bytes == CallBytes(m0, es, p) && i <= |bytes| && Sent(m0, es, p) == bytes[..i]
      case Reader(n, got) => got == Received(m0, es, p) && |got| <= n
  }

  /** What a step does to the call that p is in. */
  lemma RoleStep(m: Machine, e: Event, p: nat)
    requires p < |m.roles|
    ensures
      var t := Step(m, e);
      && |t.roles| == |m.roles|
      && match e
         case StartWrite(q, bytes) =>
           if q == p && t != m then t.roles[p] == Writer(bytes, 0) else t.roles[p] == m.roles[p]
         case StartRead(q, n) =>
           if q == p && t != m then t.roles[p] == Reader(n, []) else t.roles[p] == m.roles[p]
         case PutByte(q) =>
           if q == p && CanPut(m, p) then
             var r := m.roles[p];
             t.roles[p] == r.(i := r.i + 1) && t.accepted == m.accepted + [r.bytes[r.i]]
           else t.roles[p] == m.roles[p] && (q == p ==> t.accepted == m.accepted)
         case GetByte(q) =>
           if q == p && CanGet(m, p) then
             var r, b := m.roles[p], m.s.x.data[Spot(m.s.x.nread)];
             t.roles[p] == r.(got := r.got + [b]) && t.delivered == m.delivered + [b]
           else t.roles[p] == m.roles[p] && (q == p ==> t.delivered == m.delivered)
         case _ => t.roles[p] == m.roles[p] || t.roles[p] == Idle
  {
    hide SleepWakeup.Step, Full, Empty, Put, Get, ReaderDozes, Allowed;
  }

  lemma CallStep(m0: Machine, es: seq<Event>, p: nat)
    requires es != [] && CallOk(Run(m0, es[..|es|-1]), m0, es[..|es|-1], p)
    ensures CallOk(Run(m0, es), m0, es, p)
  {
    hide Step, Full, Empty;
    var m, e := Run(m0, es[..|es|-1]), es[|es|-1];
    if p < |m.roles| {
      RoleStep(m, e, p);
      if e == PutByte(p) && CanPut(m, p) {
        var r := m.roles[p];
        assert r.bytes[..r.i] + [r.bytes[r.i]] == r.bytes[..r.i + 1];
      }
    } else {
      StepSize(m, e);
    }
  }

  lemma {:induction false} CallsOk(n: nat, es: seq<Event>, p: nat)
    ensures CallOk(Run(Start(n), es), Start(n), es, p)
    decreases |es|
  {
    if es != [] {
      CallsOk(n, es[..|es|-1], p);
      CallStep(Start(n), es, p);
    }
  }

  /** In every run: a write that returns its count has put all the bytes it was called with into
      the pipe, in order. A read that returns has handed over what was delivered to it, no more
      than it asked for; it stops short only on an empty pipe, and returns nothing only if it was
      asked for nothing or the write end is closed. */
  lemma ReturnsComplete(n: nat, es: seq<Event>, p: nat)
    requires
      var m := Run(Start(n), es);
      p < |m.roles| && !m.roles[p].Idle? && Step(m, Finish(p)).roles[p].Idle?
    ensures
      var m := Run(Start(n), es);
      && (m.roles[p].Writer? ==> Sent(Start(n), es, p) == CallBytes(Start(n), es, p) == m.roles[p].bytes)
      && (m.roles[p].Reader? ==>
            var r := m.roles[p];
            && r.got == Received(Start(n), es, p) && |r.got| <= r.n && (|r.got| < r.n ==> Empty(m.s.x))
            && (r.got == [] ==> r.n == 0 || !m.s.x.writeopen))
  {
    hide SleepWakeup.Step, Sent, Received, CallBytes, Full;
    CallsOk(n, es, p);
  }
}
