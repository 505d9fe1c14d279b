/** Group commit (log.c begin_op, end_op, log_write) as interleaved atomic steps of any number
    of processes. log_write is two steps, since its tests come before it takes the lock. A step
    that the code would sleep on, or that a process is not in a position to take, changes
    nothing. A panic stops the machine. */
module GroupCommit {
  import opened Common
  import opened RedoLog

  datatype Want = Nothing | Wants(block: int)

  datatype Pc =
    | Outside                          // not in a file system call
    | InOp(op: nat, spent: nat, want: Want) // between begin_op and end_op; the log blocks it
                                            // added; the block whose log_write passed the tests
    | Committing                       // in end_op, about to run commit()
    | Committed                        // commit() returned, `committing` still set

  datatype Panic = NoPanic | LogCommitting | TooBigATransaction | OutsideOfTrans

  /** One log_write call: which operation made it and for which block. */
  datatype Write = Write(op: nat, block: int)

  /** `lh`, `outstanding`, `committing` are the fields of struct log. The rest is the history
      that the properties talk about: the operations numbered in order of begin_op, those
      that have ended, the writes since the last commit, and the writes and the header of each
      commit. */
  datatype State = State(
    size: nat,
    lh: seq<int>,
    outstanding: int,
    committing: bool,
    procs: seq<Pc>,
    panic: Panic,
    nextOp: nat,
    ended: set<nat>,
    pending: seq<Write>,
    groups: seq<seq<Write>>,
    headers: seq<seq<int>>)

  datatype Event =
    | Begin(p: nat)
    | Test(p: nat, block: int)  // log_write up to acquire
    | Append(p: nat)            // the rest of log_write, under the lock
    | End(p: nat)
    | DoCommit(p: nat)
    | FinishCommit(p: nat)

  function Init(size: nat, nproc: nat): State {
    State(size, [], 0, false, seq(nproc, _ => Outside), NoPanic, 0, {}, [], [], [])
  }

  predicate LogFull(size: nat, n: nat) {
    n >= LOGSIZE || n >= size - 1
  }

  predicate Ready(pc: Pc) {
    pc.InOp? && pc.want == Nothing
  }

  predicate Appends(pc: Pc) {
    pc.InOp? && pc.want != Nothing
  }

  function Step(s: State, e: Event): State {
    if s.panic != NoPanic || e.p >= |s.procs| then s
    else match e
      case Begin(p) =>
        if s.procs[p] != Outside || s.committing
           || |s.lh| + (s.outstanding + 1) * MAXOPBLOCKS > LOGSIZE then s
        else s.(outstanding := s.outstanding + 1,
                procs := s.procs[p := InOp(s.nextOp, 0, Nothing)], nextOp := s.nextOp + 1)
      case Test(p, b) =>
        if !Ready(s.procs[p]) then s
        else if LogFull(s.size, |s.lh|) then s.(panic := TooBigATransaction)
        else if s.outstanding < 1 then s.(panic := OutsideOfTrans)
        else s.(procs := s.procs[p := s.procs[p].(want := Wants(b))])
      case Append(p) =>
        if !Appends(s.procs[p]) then s
        else
          var pc, b := s.procs[p], s.procs[p].want.block;
          s.(lh := Absorb(s.lh, b),
             procs := s.procs[p := InOp(pc.op, if b in s.lh then pc.spent else pc.spent + 1, Nothing)],
             pending := s.pending + [Write(pc.op, b)])
      case End(p) =>
        if !Ready(s.procs[p]) then s
        else if s.committing then s.(outstanding := s.outstanding - 1, panic := LogCommitting)
        else
          var s' := s.(outstanding := s.outstanding - 1, ended := s.ended + {s.procs[p].op});
          if s'.outstanding == 0 then s'.(committing := true, procs := s.procs[p := Committing])
          else s'.(procs := s.procs[p := Outside])
      case DoCommit(p) =>
        if s.procs[p] != Committing then s
        else s.(lh := [], procs := s.procs[p := Committed], pending := [],
                groups := if s.pending == [] then s.groups else s.groups + [s.pending],
                headers := if s.pending == [] then s.headers else s.headers + [s.lh])
      case FinishCommit(p) =>
        if s.procs[p] != Committed then s
        else s.(committing := false, procs := s.procs[p := Outside])
  }

  function Run(s: State, es: seq<Event>): State
    decreases |es|
  {
    if es == [] then s else Step(Run(s, es[..|es|-1]), es[|es|-1])
  }

  /** The rule file system calls follow: no operation adds more than MAXOPBLOCKS blocks. */
  predicate Disciplined(s: State, e: Event) {
    e.Append? && e.p < |s.procs| && Appends(s.procs[e.p]) && s.procs[e.p].want.block !in s.lh ==>
      s.procs[e.p].spent < MAXOPBLOCKS
  }

  predicate DisciplinedRun(s: State, es: seq<Event>)
    decreases |es|
  {
    es != [] ==>
      && DisciplinedRun(s, es[..|es|-1])
      && Disciplined(Run(s, es[..|es|-1]), es[|es|-1])
  }

  // ----- counting

  function Active(procs: seq<Pc>): nat {
    if procs == [] then 0
    else Active(procs[..|procs|-1]) + if procs[|procs|-1].InOp? then 1 else 0
  }

  /** Log blocks reserved by begin_op and not used yet. */
  function Unspent(procs: seq<Pc>): int {
    if procs == [] then 0
    else
      var last := procs[|procs|-1];
      Unspent(procs[..|procs|-1]) + if last.InOp? then MAXOPBLOCKS - last.spent else 0
  }

  lemma {:induction false} UpdateCounts(procs: seq<Pc>, p: nat, pc: Pc)
    requires p < |procs|
    ensures Active(procs[p := pc]) ==
      Active(procs) - (if procs[p].InOp? then 1 else 0) + if pc.InOp? then 1 else 0
    ensures Unspent(procs[p := pc]) ==
      Unspent(procs) - (if procs[p].InOp? then MAXOPBLOCKS - procs[p].spent else 0)
      + if pc.InOp? then MAXOPBLOCKS - pc.spent else 0
  {
    var n := |procs| - 1;
    if p < n {
      assert procs[p := pc][..n] == procs[..n][p := pc];
      UpdateCounts(procs[..n], p, pc);
    } else {
      assert procs[p := pc][..n] == procs[..n];
    }
  }

  lemma {:induction false} ActiveZero(procs: seq<Pc>, p: nat)
    requires Active(procs) == 0 && p < |procs|
    ensures !procs[p].InOp?
  {
    if p < |procs| - 1 {
      ActiveZero(procs[..|procs|-1], p);
    }
  }

  lemma {:induction false} UnspentBounds(procs: seq<Pc>)
    requires forall i :: 0 <= i < |procs| && procs[i].InOp? ==> procs[i].spent <= MAXOPBLOCKS
    ensures 0 <= Unspent(procs) <= Active(procs) * MAXOPBLOCKS
  {
    if procs != [] {
      UnspentBounds(procs[..|procs|-1]);
    }
  }

  lemma {:induction false} UnspentAtLeast(procs: seq<Pc>, p: nat)
    requires forall i :: 0 <= i < |procs| && procs[i].InOp? ==> procs[i].spent <= MAXOPBLOCKS
    requires p < |procs| && procs[p].InOp?
    ensures MAXOPBLOCKS - procs[p].spent <= Unspent(procs)
    ensures 1 <= Active(procs)
  {
    if p < |procs| - 1 {
      UnspentAtLeast(procs[..|procs|-1], p);
    } else {
      UnspentBounds(procs[..|procs|-1]);
    }
  }

  lemma {:induction false} InitCounts(n: nat)
    ensures Active(seq(n, _ => Outside)) == 0 && Unspent(seq(n, _ => Outside)) == 0
  {
    if n > 0 {
      assert seq(n, _ => Outside)[..n-1] == seq(n - 1, _ => Outside);
      InitCounts(n - 1);
    }
  }

  // ----- the invariant, in three parts

  predicate Commits(pc: Pc) {
    pc.Committing? || pc.Committed?
  }

  /** outstanding counts the operations in progress; a commit excludes them all. */
  predicate Exclusion(s: State) {
    && s.outstanding == Active(s.procs)
    && (s.committing ==> s.outstanding == 0)
    && (s.committing <==> exists p :: 0 <= p < |s.procs| && Commits(s.procs[p]))
    && (forall p, q :: 0 <= p < q < |s.procs| ==> !(Commits(s.procs[p]) && Commits(s.procs[q])))
    && (forall p :: 0 <= p < |s.procs| && s.procs[p] == Committed ==> s.lh == [])
    && s.panic != LogCommitting && s.panic != OutsideOfTrans
  }

  /** Blocks in the log plus unused reservations fit the log. */
  predicate Reserved(s: State) {
    && (forall p :: 0 <= p < |s.procs| && s.procs[p].InOp? ==> s.procs[p].spent <= MAXOPBLOCKS)
    && |s.lh| + Unspent(s.procs) <= LOGSIZE
  }

  /** Operation numbers: fresh at begin_op, one per process, none running after its end. */
  predicate Numbered(s: State) {
    && (forall o :: o in s.ended ==> o < s.nextOp)
    && (forall p :: 0 <= p < |s.procs| && s.procs[p].InOp? ==>
          s.procs[p].op < s.nextOp && s.procs[p].op !in s.ended)
    && (forall p, q :: 0 <= p < q < |s.procs| && s.procs[p].InOp? && s.procs[q].InOp? ==>
          s.procs[p].op != s.procs[q].op)
  }

  /** The header names exactly the blocks of the pending writes, and the operation of each
      pending write has ended or is still running. */
  ghost predicate Tracked(s: State) {
    && (forall b :: b in s.lh <==> Logs(s.pending, b))
    && (forall i :: 0 <= i < |s.pending| ==> s.pending[i].op < s.nextOp)
    && (forall i :: 0 <= i < |s.pending| ==>
          s.pending[i].op in s.ended
          || exists p :: 0 <= p < |s.procs| && RunsOp(s.procs[p], s.pending[i].op))
  }

  /** Every operation with a write in a committed group has ended, and has no write in
      another group or still pending. */
  predicate Grouped(s: State) {
    && (forall g, i :: 0 <= g < |s.groups| && 0 <= i < |s.groups[g]| ==>
          s.groups[g][i].op in s.ended && NotPending(s.pending, s.groups[g][i].op))
    && (forall g, h, i, j :: 0 <= g < h < |s.groups| && 0 <= i < |s.groups[g]| && 0 <= j < |s.groups[h]| ==>
          s.groups[g][i].op != s.groups[h][j].op)
  }

  ghost predicate Whole(s: State) {
    Numbered(s) && Tracked(s) && Grouped(s)
  }

  predicate Logs(ws: seq<Write>, b: int) {
    exists i :: 0 <= i < |ws| && ws[i].block == b
  }

  predicate RunsOp(pc: Pc, o: nat) {
    pc.InOp? && pc.op == o
  }

  predicate NotPending(ws: seq<Write>, o: nat) {
    forall i :: 0 <= i < |ws| ==> ws[i].op != o
  }

  lemma StepExclusion(s: State, e: Event)
    requires Exclusion(s)
    ensures Exclusion(Step(s, e))
  {
    hide Active, Unspent;
    var t := Step(s, e);
    if s.panic == NoPanic && e.p < |s.procs| {
      UpdateCounts(s.procs, e.p, t.procs[e.p]);
      assert t.procs == s.procs[e.p := t.procs[e.p]];
      if s.procs[e.p].InOp? {
        OneActive(s.procs, e.p);
      }
      forall p | 0 <= p < |s.procs| && s.committing
        ensures !s.procs[p].InOp?
      {
        ActiveZero(s.procs, p);
      }
      if t.committing && !s.committing {
        assert Commits(t.procs[e.p]);
      } else if t.committing && s.committing {
        var p :| 0 <= p < |s.procs| && Commits(s.procs[p]);
        assert Commits(t.procs[p]);
      }
    }
  }

  lemma {:induction false} OneActive(procs: seq<Pc>, p: nat)
    requires p < |procs| && procs[p].InOp?
    ensures 1 <= Active(procs)
  {
    if p < |procs| - 1 {
      OneActive(procs[..|procs|-1], p);
    }
  }

  lemma StepReserved(s: State, e: Event)
    requires Exclusion(s) && Reserved(s) && Disciplined(s, e)
    ensures Reserved(Step(s, e))
  {
    var t := Step(s, e);
    if t.procs != s.procs {
      var pc := t.procs[e.p];
      assert t.procs == s.procs[e.p := pc];
      UpdateCounts(s.procs, e.p, pc);
      UnspentBounds(s.procs);
      assert pc.InOp? ==> pc.spent <= MAXOPBLOCKS;
    }
  }

  lemma StepWhole(s: State, e: Event)
    requires Exclusion(s) && Whole(s)
    ensures Whole(Step(s, e))
  {
    match e
    case Begin(p) => BeginWhole(s, p);
    case Test(p, b) => TestWhole(s, p, b);
    case Append(p) => AppendWhole(s, p);
    case End(p) => EndWhole(s, p);
    case DoCommit(p) => CommitWhole(s, p);
    case FinishCommit(p) => FinishWhole(s, p);
  }

  /** Pending writes keep their operation while no process leaves its operation. */
  lemma WriterStays(s: State, t: State)
    requires Whole(s) && |t.procs| == |s.procs| && s.pending <= t.pending && s.ended <= t.ended
    requires forall q :: 0 <= q < |s.procs| && s.procs[q].InOp? && s.procs[q].op !in t.ended ==>
      RunsOp(t.procs[q], s.procs[q].op)
    ensures forall i :: 0 <= i < |s.pending| ==>
      t.pending[i].op in t.ended || exists q :: 0 <= q < |t.procs| && RunsOp(t.procs[q], t.pending[i].op)
  {
    forall i | 0 <= i < |s.pending| && t.pending[i].op !in t.ended
      ensures exists q :: 0 <= q < |t.procs| && RunsOp(t.procs[q], t.pending[i].op)
    {
      var q :| 0 <= q < |s.procs| && RunsOp(s.procs[q], s.pending[i].op);
      assert RunsOp(t.procs[q], t.pending[i].op);
    }
  }

  lemma BeginWhole(s: State, p: nat)
    requires Whole(s)
    ensures Whole(Step(s, Begin(p)))
  {
    WriterStays(s, Step(s, Begin(p)));
  }

  lemma FinishWhole(s: State, p: nat)
    requires Whole(s)
    ensures Whole(Step(s, FinishCommit(p)))
  {
    WriterStays(s, Step(s, FinishCommit(p)));
  }

  lemma AbsorbLogs(lh: seq<int>, ws: seq<Write>, w: Write)
    requires forall b :: b in lh <==> Logs(ws, b)
    ensures forall b :: b in Absorb(lh, w.block) <==> Logs(ws + [w], b)
  {
    forall b
      ensures b in Absorb(lh, w.block) <==> Logs(ws + [w], b)
    {
      if b in lh {
        var i :| 0 <= i < |ws| && ws[i].block == b;
        assert (ws + [w])[i].block == b;
      }
      if b == w.block {
        assert (ws + [w])[|ws|].block == b;
      }
      if Logs(ws + [w], b) && b != w.block {
        var i :| 0 <= i < |ws + [w]| && (ws + [w])[i].block == b;
        assert ws[i].block == b;
      }
    }
  }

  lemma TestWhole(s: State, p: nat, b: int)
    requires Whole(s)
    ensures Whole(Step(s, Test(p, b)))
  {
    WriterStays(s, Step(s, Test(p, b)));
  }

  lemma AppendWhole(s: State, p: nat)
    requires Whole(s)
    ensures Whole(Step(s, Append(p)))
  {
    var t := Step(s, Append(p));
    WriterStays(s, t);
    assert Numbered(t);
    if t.pending != s.pending {
      var w := t.pending[|s.pending|];
      assert RunsOp(t.procs[p], w.op);
      AbsorbLogs(s.lh, s.pending, w);
      WriteGrouped(s, w);
    }
  }

  lemma WriteGrouped(s: State, w: Write)
    requires Grouped(s) && w.op !in s.ended
    ensures Grouped(s.(pending := s.pending + [w]))
  {}

  lemma EndWhole(s: State, p: nat)
    requires Exclusion(s) && Whole(s)
    ensures Whole(Step(s, End(p)))
  {
    var t := Step(s, End(p));
    if p < |s.procs| && s.procs[p].InOp? {
      OneActive(s.procs, p);
    }
    WriterStays(s, t);
  }

  lemma CommitWhole(s: State, p: nat)
    requires Exclusion(s) && Whole(s)
    ensures Whole(Step(s, DoCommit(p)))
  {
    var t := Step(s, DoCommit(p));
    if t == s {
      return;
    }
    assert Commits(s.procs[p]);
    forall i | 0 <= i < |s.pending|
      ensures s.pending[i].op in s.ended
    {
      forall q | 0 <= q < |s.procs|
        ensures !s.procs[q].InOp?
      {
        ActiveZero(s.procs, q);
      }
    }
  }

  /** In every interleaving: a commit never overlaps an operation, neither the "log.committing"
      nor the "log_write outside of trans" panic is reached, and every committed group holds
      whole operations. */
  lemma {:induction false} GroupCommitSafe(size: nat, nproc: nat, es: seq<Event>)
    ensures Exclusion(Run(Init(size, nproc), es)) && Whole(Run(Init(size, nproc), es))
    decreases |es|
  {
    var s0 := Init(size, nproc);
    if es == [] {
      InitCounts(nproc);
    } else {
      GroupCommitSafe(size, nproc, es[..|es|-1]);
      StepExclusion(Run(s0, es[..|es|-1]), es[|es|-1]);
      StepWhole(Run(s0, es[..|es|-1]), es[|es|-1]);
    }
  }

  /** The reservation rule of begin_op is enough: if no operation adds more than MAXOPBLOCKS
      blocks, the log never holds more than LOGSIZE minus what is still reserved. */
  lemma {:induction false} ReservationHolds(size: nat, nproc: nat, es: seq<Event>)
    requires DisciplinedRun(Init(size, nproc), es)
    ensures Reserved(Run(Init(size, nproc), es))
    decreases |es|
  {
    var s0 := Init(size, nproc);
    if es == [] {
      InitCounts(nproc);
    } else {
      ReservationHolds(size, nproc, es[..|es|-1]);
      GroupCommitSafe(size, nproc, es[..|es|-1]);
      StepReserved(Run(s0, es[..|es|-1]), es[|es|-1]);
    }
  }

  // ----- runs that fill the log

  lemma {:induction false} RunKeepsSize(s: State, es: seq<Event>)
    ensures Run(s, es).size == s.size
    decreases |es|
  {
    if es != [] {
      RunKeepsSize(s, es[..|es|-1]);
    }
  }

  /** One more step of a disciplined run. */
  lemma Then(s: State, es: seq<Event>, e: Event)
    requires DisciplinedRun(s, es) && Disciplined(Run(s, es), e)
    ensures DisciplinedRun(s, es + [e]) && Run(s, es + [e]) == Step(Run(s, es), e)
  {
    assert (es + [e])[..|es|] == es;
  }

  /** m blocks are in the log, added in turn by three operations. */
  function Filled(size: nat, m: nat): State {
    State(size, seq(m, i => i), 3, false, [FillPc(m, 0), FillPc(m, 1), FillPc(m, 2)], NoPanic, 3, {},
          seq(m, i => Write(i % 3, i)), [], [])
  }

  function FillPc(m: nat, p: nat): Pc
    requires p < 3
  {
    InOp(p, (m + 2 - p) / 3, Nothing)
  }

  lemma BeginThree(size: nat) returns (es: seq<Event>)
    ensures DisciplinedRun(Init(size, 3), es) && Run(Init(size, 3), es) == Filled(size, 0)
  {
    var s0 := Init(size, 3);
    es := [];
    Then(s0, es, Begin(0));
    es := es + [Begin(0)];
    assert Run(s0, es).procs == [InOp(0, 0, Nothing), Outside, Outside];
    Then(s0, es, Begin(1));
    es := es + [Begin(1)];
    assert Run(s0, es).procs == [InOp(0, 0, Nothing), InOp(1, 0, Nothing), Outside];
    Then(s0, es, Begin(2));
    es := es + [Begin(2)];
    assert Run(s0, es).procs == [InOp(0, 0, Nothing), InOp(1, 0, Nothing), InOp(2, 0, Nothing)];
  }

  /** One whole log_write by the operation whose turn it is. */
  lemma FillStep(size: nat, m: nat)
    requires m < LOGSIZE && m < size - 1
    ensures
      var s, p := Filled(size, m), m % 3;
      && Disciplined(s, Test(p, m)) && Disciplined(Step(s, Test(p, m)), Append(p))
      && Step(Step(s, Test(p, m)), Append(p)) == Filled(size, m + 1)
  {
    var s, p := Filled(size, m), m % 3;
    assert m !in s.lh;
    var t := Step(Step(s, Test(p, m)), Append(p));
    assert t.lh == seq(m + 1, i => i);
    assert t.procs == Filled(size, m + 1).procs;
    assert t.pending == Filled(size, m + 1).pending;
  }

  lemma {:induction false} Fill(size: nat, m: nat) returns (es: seq<Event>)
    requires m <= LOGSIZE && (m == 0 || m <= size - 1)
    ensures DisciplinedRun(Init(size, 3), es) && Run(Init(size, 3), es) == Filled(size, m)
  {
    if m == 0 {
      es := BeginThree(size);
    } else {
      hide Filled, Step, Disciplined;
      es := Fill(size, m - 1);
      FillStep(size, m - 1);
      Then(Init(size, 3), es, Test((m - 1) % 3, m - 1));
      es := es + [Test((m - 1) % 3, m - 1)];
      Then(Init(size, 3), es, Append((m - 1) % 3));
      es := es + [Append((m - 1) % 3)];
    }
  }

  // ----- when log_write can panic

  /** An operation that has not used its reservation up calls log_write and the log refuses. */
  predicate RefusesReserved(s: State, p: nat) {
    && s.panic == NoPanic
    && p < |s.procs|
    && Ready(s.procs[p]) && s.procs[p].spent < MAXOPBLOCKS
    && LogFull(s.size, |s.lh|)
  }

  /** The panic "too big a transaction" against the reservation rule: an operation with blocks
      still reserved can be refused in some disciplined run exactly when the log area has at
      most LOGSIZE blocks. The area mkfs makes has LOGSIZE blocks. */
  lemma RefusalExactlyWhenLogSmall(size: nat)
    requires 0 < size
    ensures (exists nproc: nat, es: seq<Event>, p: nat ::
               DisciplinedRun(Init(size, nproc), es) && RefusesReserved(Run(Init(size, nproc), es), p))
            <==> size <= LOGSIZE
  {
    if size <= LOGSIZE {
      var m := size - 1;
      var es := Fill(size, m);
      assert RefusesReserved(Run(Init(size, 3), es), m % 3);
    }
    forall nproc: nat, es: seq<Event>, p: nat |
      DisciplinedRun(Init(size, nproc), es) && RefusesReserved(Run(Init(size, nproc), es), p)
      ensures size <= LOGSIZE
    {
      RunKeepsSize(Init(size, nproc), es);
      ReservationHolds(size, nproc, es);
      UnspentAtLeast(Run(Init(size, nproc), es).procs, p);
    }
  }

  /** With a log area larger than LOGSIZE, in every disciplined run: a log_write that keeps to the
      rule is refused exactly when the log holds LOGSIZE blocks. Then its block is one of them,
      so that it would only have been absorbed, and every running operation has used exactly its
      reservation. */
  lemma RefusedExactlyWhenFull(size: nat, nproc: nat, es: seq<Event>, p: nat, b: int)
    requires size > LOGSIZE && DisciplinedRun(Init(size, nproc), es)
    requires
      var s := Run(Init(size, nproc), es);
      && s.panic == NoPanic && p < |s.procs| && Ready(s.procs[p])
      && (b in s.lh || s.procs[p].spent < MAXOPBLOCKS)
    ensures
      var s := Run(Init(size, nproc), es);
      && (Step(s, Test(p, b)).panic == TooBigATransaction <==> |s.lh| == LOGSIZE)
      && (|s.lh| == LOGSIZE ==>
            && b in s.lh
            && (forall q :: 0 <= q < |s.procs| && s.procs[q].InOp? ==> s.procs[q].spent == MAXOPBLOCKS))
  {
    var s := Run(Init(size, nproc), es);
    RunKeepsSize(Init(size, nproc), es);
    ReservationHolds(size, nproc, es);
    UnspentBounds(s.procs);
    forall q | 0 <= q < |s.procs| && s.procs[q].InOp?
      ensures MAXOPBLOCKS - s.procs[q].spent <= Unspent(s.procs)
    {
      UnspentAtLeast(s.procs, q);
    }
  }

  /** This does happen: all reservations used, and a write of a block already in the log. */
  lemma AbsorbedWriteRefused(size: nat) returns (es: seq<Event>)
    requires size > LOGSIZE
    ensures
      var s := Run(Init(size, 3), es);
      && DisciplinedRun(Init(size, 3), es) && s.panic == NoPanic
      && |s.procs| == 3 && Ready(s.procs[0]) && 0 in s.lh
      && Step(s, Test(0, 0)).panic == TooBigATransaction
  {
    es := Fill(size, LOGSIZE);
    assert Run(Init(size, 3), es).lh[0] == 0;
  }

  // ----- the log area

  /** The header's blocks and the header itself fit the log area. */
  predicate FitsArea(s: State) {
    |s.lh| < s.size
  }

  /** From size - 2 blocks, two operations pass the tests before either appends. */
  lemma Overrun(size: nat) returns (es: seq<Event>)
    requires 2 <= size <= LOGSIZE
    ensures DisciplinedRun(Init(size, 3), es) && Run(Init(size, 3), es).panic == NoPanic
    ensures |Run(Init(size, 3), es).lh| == size
  {
    var m := size - 2;
    var s0, p, q := Init(size, 3), m % 3, (m + 1) % 3;
    es := Fill(size, m);
    Then(s0, es, Test(p, m));
    es := es + [Test(p, m)];
    Then(s0, es, Test(q, m + 1));
    es := es + [Test(q, m + 1)];
    OverrunSteps(size, Run(s0, es));
    Then(s0, es, Append(p));
    es := es + [Append(p)];
    Then(s0, es, Append(q));
    es := es + [Append(q)];
  }

  lemma OverrunSteps(size: nat, s: State)
    requires 2 <= size <= LOGSIZE
    requires
      var m := size - 2;
      s == Step(Step(Filled(size, m), Test(m % 3, m)), Test((m + 1) % 3, m + 1))
    ensures
      var m := size - 2;
      var t := Step(s, Append(m % 3));
      && Disciplined(s, Append(m % 3)) && Disciplined(t, Append((m + 1) % 3))
      && Step(t, Append((m + 1) % 3)).panic == NoPanic && |Step(t, Append((m + 1) % 3)).lh| == size
  {
    var m := size - 2;
    assert m !in s.lh && m + 1 !in s.lh;
  }

  /** Since the tests come before the lock, a disciplined run can overfill the log area, and then
      write_log writes past its end, exactly when the area has from 2 to LOGSIZE blocks. */
  lemma AreaExactlyWhenLarge(size: nat)
    requires 0 < size
    ensures (forall nproc: nat, es: seq<Event> ::
               DisciplinedRun(Init(size, nproc), es) ==> FitsArea(Run(Init(size, nproc), es)))
            <==> size == 1 || size > LOGSIZE
  {
    if 2 <= size <= LOGSIZE {
      var es := Overrun(size);
      RunKeepsSize(Init(size, 3), es);
      assert DisciplinedRun(Init(size, 3), es) && !FitsArea(Run(Init(size, 3), es));
    } else {
      forall nproc: nat, es: seq<Event> | DisciplinedRun(Init(size, nproc), es)
        ensures FitsArea(Run(Init(size, nproc), es))
      {
        RunKeepsSize(Init(size, nproc), es);
        if size == 1 {
          OneBlockArea(nproc, es);
        } else {
          ReservationHolds(size, nproc, es);
          UnspentBounds(Run(Init(size, nproc), es).procs);
        }
      }
    }
  }

  /** An area of one block refuses every log_write. */
  lemma {:induction false} OneBlockArea(nproc: nat, es: seq<Event>)
    ensures
      var s := Run(Init(1, nproc), es);
      s.size == 1 && s.lh == [] && forall p :: 0 <= p < |s.procs| ==> !Appends(s.procs[p])
    decreases |es|
  {
    if es != [] {
      OneBlockArea(nproc, es[..|es|-1]);
    }
  }

  // ----- committed groups are transactions of the redo log

  /** log_write is called for blocks of the file system, never for the log itself. */
  predicate HomeEvents(l: Layout, disksize: nat, es: seq<Event>) {
    forall i :: 0 <= i < |es| && es[i].Test? ==> Home(l, disksize, es[i].block)
  }

  predicate Home(l: Layout, disksize: nat, b: int) {
    0 <= b < disksize && !InLog(l, b)
  }

  predicate Named(l: Layout, disksize: nat, blocks: seq<int>) {
    && (forall i :: 0 <= i < |blocks| ==> Home(l, disksize, blocks[i]))
    && (forall i, j :: 0 <= i < j < |blocks| ==> blocks[i] != blocks[j])
  }

  /** The headers written so far and the one being built. */
  predicate HeadersOk(l: Layout, disksize: nat, s: State) {
    && Named(l, disksize, s.lh)
    && (forall p :: 0 <= p < |s.procs| && Appends(s.procs[p]) ==> Home(l, disksize, s.procs[p].want.block))
    && |s.headers| == |s.groups|
    && (forall g :: 0 <= g < |s.headers| ==> Named(l, disksize, s.headers[g]) && |s.headers[g]| <= LOGSIZE)
  }

  ghost predicate HeadersName(s: State) {
    && |s.headers| == |s.groups|
    && (forall g :: 0 <= g < |s.headers| ==> Names(s.headers[g], s.groups[g]))
  }

  /** The header names exactly the blocks of the writes. */
  ghost predicate Names(header: seq<int>, ws: seq<Write>) {
    forall b :: b in header <==> Logs(ws, b)
  }

  lemma StepHeaders(l: Layout, disksize: nat, s: State, e: Event)
    requires HeadersOk(l, disksize, s) && |s.lh| <= LOGSIZE && (e.Test? ==> Home(l, disksize, e.block))
    ensures HeadersOk(l, disksize, Step(s, e))
  {}

  lemma StepNames(s: State, e: Event)
    requires HeadersName(s) && Names(s.lh, s.pending)
    ensures HeadersName(Step(s, e))
  {}

  lemma {:induction false} RunHeaders(l: Layout, disksize: nat, nproc: nat, es: seq<Event>)
    requires DisciplinedRun(Init(l.size, nproc), es) && HomeEvents(l, disksize, es)
    ensures HeadersOk(l, disksize, Run(Init(l.size, nproc), es)) && HeadersName(Run(Init(l.size, nproc), es))
    decreases |es|
  {
    var s0 := Init(l.size, nproc);
    if es != [] {
      var s := Run(s0, es[..|es|-1]);
      RunHeaders(l, disksize, nproc, es[..|es|-1]);
      ReservationHolds(l.size, nproc, es[..|es|-1]);
      GroupCommitSafe(l.size, nproc, es[..|es|-1]);
      UnspentBounds(s.procs);
      StepHeaders(l, disksize, s, es[|es|-1]);
      StepNames(s, es[|es|-1]);
    }
  }

  /** A header that a disciplined run commits is a transaction of the redo log exactly when it fits
      the log area, as it always does in an area larger than LOGSIZE. */
  lemma GroupsAreTransactions(l: Layout, disksize: nat, nproc: nat, es: seq<Event>, g: nat)
    requires DisciplinedRun(Init(l.size, nproc), es) && HomeEvents(l, disksize, es)
    requires g < |Run(Init(l.size, nproc), es).headers|
    ensures
      var blocks := Run(Init(l.size, nproc), es).headers[g];
      (Transaction(l, blocks, disksize) <==> |blocks| < l.size) && (l.size > LOGSIZE ==> |blocks| < l.size)
  {
    RunHeaders(l, disksize, nproc, es);
    var blocks := Run(Init(l.size, nproc), es).headers[g];
    assert Named(l, disksize, blocks);
    forall i | 0 <= i < |blocks|
      ensures 0 <= blocks[i] < disksize && !InLog(l, blocks[i])
    {
      assert Home(l, disksize, blocks[i]);
    }
  }

  /** All writes of the group are as in image d. */
  predicate Shows(final: Disk, ws: seq<Write>, d: Disk) {
    forall i :: 0 <= i < |ws| && 0 <= ws[i].block < |final| && ws[i].block < |d| ==>
      final[ws[i].block] == d[ws[i].block]
  }

  /** Whole operations are atomic under crashes. Stop the commit of group g after any number k of
      its block writes, and crash and restart recovery any number of times: either every write of
      every operation of the group is on the disk or none is, and each operation has all of its
      writes in one group. The group must fit the log area. */
  lemma OperationsAtomic(l: Layout, nproc: nat, es: seq<Event>, g: nat, d: Disk, mem: Disk, k: nat, ks: seq<nat>)
    requires Clean(l, d) && |mem| == |d| && DisciplinedRun(Init(l.size, nproc), es) && HomeEvents(l, |d|, es)
    requires g < |Run(Init(l.size, nproc), es).headers| && |Run(Init(l.size, nproc), es).headers[g]| < l.size
    requires k <= 2 * |Run(Init(l.size, nproc), es).headers[g]| + 2
    ensures
      var s := Run(Init(l.size, nproc), es);
      && |s.groups| == |s.headers| && Transaction(l, s.headers[g], |d|)
      && var blocks, ws := s.headers[g], s.groups[g];
        var crashed := CommitImage(l, d, mem, blocks, k);
        && Recoverable(l, crashed)
        && (Attempts(l, crashed, ks) ==>
              && Recoverable(l, AfterAttempts(l, crashed, ks))
              && Shows(Recovered(l, AfterAttempts(l, crashed, ks)), ws, if k <= |blocks| then d else mem))
        && (forall i, h, j :: 0 <= i < |ws| && 0 <= h < |s.groups| && h != g && 0 <= j < |s.groups[h]| ==>
              ws[i].op in s.ended && ws[i].op != s.groups[h][j].op)
  {
    var s := Run(Init(l.size, nproc), es);
    RunHeaders(l, |d|, nproc, es);
    GroupsAreTransactions(l, |d|, nproc, es, g);
    GroupCommitSafe(l.size, nproc, es);
    var blocks, ws := s.headers[g], s.groups[g];
    CrashAtomicity(l, d, mem, blocks, k, ks);
    assert Names(blocks, ws);
    var crashed := CommitImage(l, d, mem, blocks, k);
    if Attempts(l, crashed, ks) {
      WritesShown(l, Recovered(l, AfterAttempts(l, crashed, ks)), ws, blocks, d, mem, k <= |blocks|);
    }
  }

  lemma WritesShown(l: Layout, final: Disk, ws: seq<Write>, blocks: seq<int>, d: Disk, mem: Disk, none: bool)
    requires |mem| == |d| && Transaction(l, blocks, |d|) && Names(blocks, ws)
    requires SameHome(l, final, if none then d else Updated(d, mem, blocks))
    ensures Shows(final, ws, if none then d else mem)
  {
    forall i | 0 <= i < |ws| && 0 <= ws[i].block < |final|
      ensures final[ws[i].block] == if none then d[ws[i].block] else mem[ws[i].block]
    {
      assert Logs(ws, ws[i].block);
      var j :| 0 <= j < |blocks| && blocks[j] == ws[i].block;
    }
  }

  // ----- every log_write is committed

  /** The step is taken: its process is in a position to take it and does not have to wait. */
  predicate Taken(s: State, e: Event) {
    s.panic == NoPanic && e.p < |s.procs| &&
    match e
    case Begin(p) =>
      s.procs[p] == Outside && !s.committing && |s.lh| + (s.outstanding + 1) * MAXOPBLOCKS <= LOGSIZE
    case Test(p, b) => Ready(s.procs[p]) && !LogFull(s.size, |s.lh|) && s.outstanding >= 1
    case Append(p) => Appends(s.procs[p])
    case End(p) => Ready(s.procs[p]) && !s.committing
    case DoCommit(p) => s.procs[p] == Committing
    case FinishCommit(p) => s.procs[p] == Committed
  }

  /** How many operations have begun. */
  function Begun(s: State, es: seq<Event>): nat
    decreases |es|
  {
    if es == [] then 0
    else
      var before, e := es[..|es|-1], es[|es|-1];
      Begun(s, before) + if e.Begin? && Taken(Run(s, before), e) then 1 else 0
  }

  /** The number of the operation that p began last. */
  function LastOp(s: State, es: seq<Event>, p: nat): nat
    decreases |es|
  {
    if es == [] then 0
    else
      var before, e := es[..|es|-1], es[|es|-1];
      if e == Begin(p) && Taken(Run(s, before), e) then Begun(s, before) else LastOp(s, before, p)
  }

  /** The block for which p passed the tests last. */
  function LastTested(s: State, es: seq<Event>, p: nat): int
    decreases |es|
  {
    if es == [] then 0
    else
      var before, e := es[..|es|-1], es[|es|-1];
      if e.Test? && e.p == p && Taken(Run(s, before), e) then e.block else LastTested(s, before, p)
  }

  /** The log_write calls of a run that got through, in order. */
  function Calls(s: State, es: seq<Event>): seq<Write>
    decreases |es|
  {
    if es == [] then []
    else
      var before, e := es[..|es|-1], es[|es|-1];
      Calls(s, before) +
      if e.Append? && Taken(Run(s, before), e) then [Write(LastOp(s, before, e.p), LastTested(s, before, e.p))] else []
  }

  function Joined(groups: seq<seq<Write>>): seq<Write> {
    if groups == [] then [] else Joined(groups[..|groups|-1]) + groups[|groups|-1]
  }

  lemma JoinedLast(groups: seq<seq<Write>>, g: seq<Write>)
    ensures Joined(groups + [g]) == Joined(groups) + g
  {
    assert (groups + [g])[..|groups|] == groups;
  }

  /** What process p is doing is what its events say. */
  predicate Doing(s: State, s0: State, es: seq<Event>, p: nat) {
    p < |s.procs| && s.procs[p].InOp? ==>
      && s.procs[p].op == LastOp(s0, es, p)
      && (s.procs[p].want != Nothing ==> s.procs[p].want.block == LastTested(s0, es, p))
  }

  lemma {:induction false} RunDoing(size: nat, nproc: nat, es: seq<Event>, p: nat)
    ensures Run(Init(size, nproc), es).nextOp == Begun(Init(size, nproc), es)
    ensures Doing(Run(Init(size, nproc), es), Init(size, nproc), es, p)
    decreases |es|
  {
    if es != [] {
      RunDoing(size, nproc, es[..|es|-1], p);
    }
  }

  /** Nothing is lost and nothing invented: in every run the committed groups, in order, and then
      the writes still pending are exactly the log_write calls that got through. */
  lemma {:induction false} WritesConserved(size: nat, nproc: nat, es: seq<Event>)
    ensures
      var s := Run(Init(size, nproc), es);
      Joined(s.groups) + s.pending == Calls(Init(size, nproc), es)
    decreases |es|
  {
    var s0 := Init(size, nproc);
    if es != [] {
      var before, e := es[..|es|-1], es[|es|-1];
      var s := Run(s0, before);
      WritesConserved(size, nproc, before);
      RunDoing(size, nproc, before, e.p);
      JoinedLast(s.groups, s.pending);
      hide Joined, LastOp, LastTested, Doing;
      StepWrites(s, e);
    }
  }

  function Added(s: State, e: Event): seq<Write> {
    if e.Append? && Taken(s, e) then [Write(s.procs[e.p].op, s.procs[e.p].want.block)] else []
  }

  lemma StepWrites(s: State, e: Event)
    ensures
      var t := Step(s, e);
      if e.DoCommit? && Taken(s, e) && s.pending != [] then t.groups == s.groups + [s.pending] && t.pending == []
      else t.groups == s.groups && t.pending == s.pending + Added(s, e)
  {}

  lemma {:induction false} NoneActive(procs: seq<Pc>)
    requires forall q :: 0 <= q < |procs| ==> !procs[q].InOp?
    ensures Active(procs) == 0
  {
    if procs != [] {
      NoneActive(procs[..|procs|-1]);
    }
  }

  /** The last running operation ends: the machine can then do nothing but commit everything that is
      pending, as one group with its header, and after that the log is empty and open again. */
  lemma LastEndCommits(size: nat, nproc: nat, es: seq<Event>, p: nat)
    requires
      var s := Run(Init(size, nproc), es);
      && s.panic == NoPanic && p < |s.procs| && Ready(s.procs[p])
      && (forall q :: 0 <= q < |s.procs| && q != p ==> !s.procs[q].InOp?)
    ensures
      var s := Run(Init(size, nproc), es);
      var t := Step(s, End(p));
      && s.procs[p].op in t.ended && (forall e :: e != DoCommit(p) ==> Step(t, e) == t)
      && Step(t, DoCommit(p)) ==
           t.(lh := [], pending := [], procs := t.procs[p := Committed],
              groups := if s.pending == [] then s.groups else s.groups + [s.pending],
              headers := if s.pending == [] then s.headers else s.headers + [s.lh])
      && Step(Step(t, DoCommit(p)), FinishCommit(p)) ==
           Step(t, DoCommit(p)).(committing := false, procs := s.procs[p := Outside])
  {
    var s := Run(Init(size, nproc), es);
    var t := Step(s, End(p));
    GroupCommitSafe(size, nproc, es);
    UpdateCounts(s.procs, p, Outside);
    NoneActive(s.procs[p := Outside]);
    assert t.committing && t.procs == s.procs[p := Committing];
    StepExclusion(s, End(p));
    forall e | e != DoCommit(p)
      ensures Step(t, e) == t
    {
      OnlyCommits(t, p, e);
    }
    assert s.procs[p := Committing][p := Committed][p := Outside] == s.procs[p := Outside];
  }

  lemma OnlyCommits(t: State, p: nat, e: Event)
    requires Exclusion(t) && p < |t.procs| && t.procs[p] == Committing && e != DoCommit(p)
    ensures Step(t, e) == t
  {
    assert Commits(t.procs[p]);
    if e.p < |t.procs| {
      ActiveZero(t.procs, e.p);
    }
  }
}
