/** The on-disk redo log (log.c) over atomic single-block writes.

    A disk image is a sequence of blocks and a block is BWORDS machine words. `LogDevice`
    is the imperative log; every block write it makes is appended to the ghost field
    `trace`, so its contracts name each disk image at which the machine can stop. The
    images are described by functions on values, and the crash theorems are about those. */
module RedoLog {
  import opened Common

  const BWORDS := 128 // BSIZE / sizeof(int)

  type Block = b: seq<int> | |b| == BWORDS witness seq(BWORDS, _ => 0)
  type Disk = seq<Block>

  /** Where the log lives: header block `start`, log blocks `start+1 .. start+size-1`. */
  datatype Layout = Layout(start: nat, size: nat)

  predicate InLog(l: Layout, b: int) {
    l.start <= b < l.start + l.size
  }

  predicate Fits(l: Layout, d: Disk) {
    0 < l.size && l.start + l.size <= |d|
  }

  /** What a transaction may name: distinct home blocks, few enough for header and log. */
  predicate Transaction(l: Layout, blocks: seq<int>, disksize: nat) {
    && |blocks| <= LOGSIZE
    && |blocks| < l.size
    && (forall i :: 0 <= i < |blocks| ==> 0 <= blocks[i] < disksize && !InLog(l, blocks[i]))
    && (forall i, j :: 0 <= i < j < |blocks| ==> blocks[i] != blocks[j])
  }

  /** Two images hold the same data outside the log area. */
  predicate SameHome(l: Layout, d: Disk, e: Disk) {
    |d| == |e| && forall b :: 0 <= b < |d| && !InLog(l, b) ==> d[b] == e[b]
  }

  predicate SameLog(l: Layout, d: Disk, e: Disk) {
    |d| == |e| && forall b :: 0 <= b < |d| && InLog(l, b) ==> d[b] == e[b]
  }

  // ----- the header block

  /** The header write_head produces from the cached header block: words past the last
      entry keep their stale values. */
  function Header(prior: Block, blocks: seq<int>): Block
    requires |blocks| <= LOGSIZE
  {
    seq(BWORDS, i requires 0 <= i < BWORDS =>
        if i == 0 then |blocks| else if i <= |blocks| then blocks[i-1] else prior[i])
  }

  predicate HeaderReadable(h: Block) {
    0 <= h[0] <= LOGSIZE
  }

  /** The block numbers read_head finds in a header block. */
  function HeaderBlocks(h: Block): seq<int>
    requires HeaderReadable(h)
  {
    h[1..1 + h[0]]
  }

  lemma HeaderRoundTrip(prior: Block, blocks: seq<int>)
    requires |blocks| <= LOGSIZE
    ensures HeaderReadable(Header(prior, blocks)) && HeaderBlocks(Header(prior, blocks)) == blocks
  {
    assert HeaderBlocks(Header(prior, blocks)) == blocks;
  }

  /** An image that recovery can be started on. */
  predicate Recoverable(l: Layout, d: Disk) {
    && Fits(l, d)
    && HeaderReadable(d[l.start])
    && Transaction(l, HeaderBlocks(d[l.start]), |d|)
  }

  predicate Clean(l: Layout, d: Disk) {
    Fits(l, d) && d[l.start][0] == 0
  }

  // ----- disk images

  /** After the first k block writes of write_log. */
  function Logged(l: Layout, d: Disk, mem: Disk, blocks: seq<int>, k: nat): (r: Disk)
    requires Fits(l, d) && |mem| == |d| && Transaction(l, blocks, |d|) && k <= |blocks|
    ensures |r| == |d|
  {
    seq(|d|, b requires 0 <= b < |d| =>
        if l.start < b <= l.start + k then mem[blocks[b - l.start - 1]] else d[b])
  }

  /** After the first k block writes of install_trans. */
  function Installed(l: Layout, d: Disk, blocks: seq<int>, k: nat): (r: Disk)
    requires Fits(l, d) && Transaction(l, blocks, |d|) && k <= |blocks|
    ensures |r| == |d|
  {
    if k == 0 then d
    else Installed(l, d, blocks, k - 1)[blocks[k-1] := d[l.start + k]]
  }

  function WithHeader(l: Layout, d: Disk, blocks: seq<int>): (r: Disk)
    requires Fits(l, d) && |blocks| <= LOGSIZE
    ensures |r| == |d|
  {
    d[l.start := Header(d[l.start], blocks)]
  }

  /** The image after the first k of the 2n+2 block writes of commit. */
  function CommitImage(l: Layout, d: Disk, mem: Disk, blocks: seq<int>, k: nat): (r: Disk)
    requires Fits(l, d) && |mem| == |d| && Transaction(l, blocks, |d|)
    requires k <= 2 * |blocks| + 2
    ensures |r| == |d|
  {
    var n := |blocks|;
    if k <= n then Logged(l, d, mem, blocks, k)
    else
      var committed := WithHeader(l, Logged(l, d, mem, blocks, n), blocks);
      if k <= 2 * n + 1 then Installed(l, committed, blocks, k - n - 1)
      else WithHeader(l, Installed(l, committed, blocks, n), [])
  }

  /** How many block writes recover_from_log makes on image d. */
  function RecoveryWrites(l: Layout, d: Disk): nat
    requires Recoverable(l, d)
  {
    |HeaderBlocks(d[l.start])| + 1
  }

  /** The image after the first k block writes of recover_from_log. */
  function RecoveryImage(l: Layout, d: Disk, k: nat): (r: Disk)
    requires Recoverable(l, d) && k <= RecoveryWrites(l, d)
    ensures |r| == |d|
  {
    var blocks := HeaderBlocks(d[l.start]);
    if k <= |blocks| then Installed(l, d, blocks, k)
    else WithHeader(l, Installed(l, d, blocks, |blocks|), [])
  }

  function Recovered(l: Layout, d: Disk): (r: Disk)
    requires Recoverable(l, d)
    ensures |r| == |d|
  {
    RecoveryImage(l, d, RecoveryWrites(l, d))
  }

  /** The home data with every block of the transaction replaced by its cached contents. */
  function Updated(d: Disk, mem: Disk, blocks: seq<int>): (r: Disk)
    requires |mem| == |d|
  {
    seq(|d|, b requires 0 <= b < |d| => if b in blocks then mem[b] else d[b])
  }

  // ----- what the images hold

  /** The i-th named block gets the i-th log block. */
  lemma {:induction false} InstalledAt(l: Layout, d: Disk, blocks: seq<int>, k: nat, i: nat)
    requires Fits(l, d) && Transaction(l, blocks, |d|) && i < k <= |blocks|
    ensures Installed(l, d, blocks, k)[blocks[i]] == d[l.start + 1 + i]
  {
    if i < k - 1 {
      InstalledAt(l, d, blocks, k - 1, i);
    }
  }

  /** Blocks not named keep their contents. */
  lemma {:induction false} InstalledElsewhere(l: Layout, d: Disk, blocks: seq<int>, k: nat, b: nat)
    requires Fits(l, d) && Transaction(l, blocks, |d|) && k <= |blocks|
    requires b < |d| && forall i :: 0 <= i < k ==> blocks[i] != b
    ensures Installed(l, d, blocks, k)[b] == d[b]
  {
    if k > 0 {
      InstalledElsewhere(l, d, blocks, k - 1, b);
    }
  }

  /** Installing leaves the header and the log blocks alone. */
  lemma InstallKeepsLog(l: Layout, d: Disk, blocks: seq<int>, k: nat)
    requires Fits(l, d) && Transaction(l, blocks, |d|) && k <= |blocks|
    ensures SameLog(l, Installed(l, d, blocks, k), d)
  {
    forall b | 0 <= b < |d| && InLog(l, b)
      ensures Installed(l, d, blocks, k)[b] == d[b]
    {
      InstalledElsewhere(l, d, blocks, k, b);
    }
  }

  /** Images with one log, equal at every block the transaction does not name, are equal once
      it is installed. */
  lemma InstallAgrees(l: Layout, d: Disk, e: Disk, blocks: seq<int>)
    requires Fits(l, d) && |e| == |d| && Transaction(l, blocks, |d|) && SameLog(l, d, e)
    requires forall b :: 0 <= b < |d| && b !in blocks ==> d[b] == e[b]
    ensures Installed(l, d, blocks, |blocks|) == Installed(l, e, blocks, |blocks|)
  {
    var n := |blocks|;
    forall b | 0 <= b < |d|
      ensures Installed(l, d, blocks, n)[b] == Installed(l, e, blocks, n)[b]
    {
      if b in blocks {
        var i :| 0 <= i < n && blocks[i] == b;
        InstalledAt(l, d, blocks, n, i);
        InstalledAt(l, e, blocks, n, i);
        assert InLog(l, l.start + 1 + i);
      } else {
        InstalledElsewhere(l, d, blocks, n, b);
        InstalledElsewhere(l, e, blocks, n, b);
      }
    }
  }

  /** Installing again over a partly installed image gives what installing once gives. */
  lemma InstallTwice(l: Layout, d: Disk, blocks: seq<int>, k: nat)
    requires Fits(l, d) && Transaction(l, blocks, |d|) && k <= |blocks|
    ensures Installed(l, Installed(l, d, blocks, k), blocks, |blocks|) == Installed(l, d, blocks, |blocks|)
  {
    var e := Installed(l, d, blocks, k);
    InstallKeepsLog(l, d, blocks, k);
    forall b | 0 <= b < |d| && b !in blocks
      ensures d[b] == e[b]
    {
      InstalledElsewhere(l, d, blocks, k, b);
    }
    InstallAgrees(l, d, e, blocks);
  }

  /** A recovery stopped anywhere leaves an image whose recovery has the same outcome. */
  lemma CrashedRecovery(l: Layout, d: Disk, k: nat)
    requires Recoverable(l, d) && k <= RecoveryWrites(l, d)
    ensures Recoverable(l, RecoveryImage(l, d, k))
    ensures SameHome(l, Recovered(l, RecoveryImage(l, d, k)), Recovered(l, d))
    ensures Clean(l, Recovered(l, d))
  {
    var blocks := HeaderBlocks(d[l.start]);
    var e := RecoveryImage(l, d, k);
    if k <= |blocks| {
      InstallKeepsLog(l, d, blocks, k);
      assert InLog(l, l.start);
      InstallTwice(l, d, blocks, k);
    } else {
      assert HeaderBlocks(e[l.start]) == [];
    }
  }

  /** Recovery restarted after any number of crashes: the i-th attempt stops after ks[i] writes. */
  predicate Attempts(l: Layout, d: Disk, ks: seq<nat>)
    requires Recoverable(l, d)
    decreases |ks|
  {
    ks != [] ==>
      && ks[0] <= RecoveryWrites(l, d)
      && Recoverable(l, RecoveryImage(l, d, ks[0]))
      && Attempts(l, RecoveryImage(l, d, ks[0]), ks[1..])
  }

  function AfterAttempts(l: Layout, d: Disk, ks: seq<nat>): Disk
    requires Recoverable(l, d) && Attempts(l, d, ks)
    decreases |ks|
  {
    if ks == [] then d else AfterAttempts(l, RecoveryImage(l, d, ks[0]), ks[1..])
  }

  /** Recovery is idempotent through crashes: however often it is stopped and restarted, the
      attempt that completes ends with the home data the first one would have reached. */
  lemma {:induction false} RecoverySurvivesCrashes(l: Layout, d: Disk, ks: seq<nat>)
    requires Recoverable(l, d) && Attempts(l, d, ks)
    ensures Recoverable(l, AfterAttempts(l, d, ks))
    ensures SameHome(l, Recovered(l, AfterAttempts(l, d, ks)), Recovered(l, d))
    ensures Clean(l, Recovered(l, AfterAttempts(l, d, ks)))
    decreases |ks|
  {
    if ks == [] {
      CrashedRecovery(l, d, 0);
    } else {
      CrashedRecovery(l, d, ks[0]);
      RecoverySurvivesCrashes(l, RecoveryImage(l, d, ks[0]), ks[1..]);
    }
  }

  lemma RecoverClean(l: Layout, d: Disk)
    requires Clean(l, d)
    ensures Recoverable(l, d) && SameHome(l, Recovered(l, d), d)
  {
    assert HeaderBlocks(d[l.start]) == [];
  }

  lemma InstallUpdates(l: Layout, d: Disk, mem: Disk, blocks: seq<int>, c: Disk)
    requires Fits(l, d) && |mem| == |d| == |c| && Transaction(l, blocks, |d|)
    requires SameHome(l, c, d)
    requires forall i :: 0 <= i < |blocks| ==> c[l.start + 1 + i] == mem[blocks[i]]
    ensures SameHome(l, Installed(l, c, blocks, |blocks|), Updated(d, mem, blocks))
  {
    forall b | 0 <= b < |d| && !InLog(l, b)
      ensures Installed(l, c, blocks, |blocks|)[b] == Updated(d, mem, blocks)[b]
    {
      if b in blocks {
        var i :| 0 <= i < |blocks| && blocks[i] == b;
        InstalledAt(l, c, blocks, |blocks|, i);
      } else {
        InstalledElsewhere(l, c, blocks, |blocks|, b);
      }
    }
  }

  /** The image right after the first write_head recovers to the updated home data. */
  lemma RecoverCommitted(l: Layout, d: Disk, mem: Disk, blocks: seq<int>)
    requires Fits(l, d) && |mem| == |d| && Transaction(l, blocks, |d|)
    ensures
      var c := WithHeader(l, Logged(l, d, mem, blocks, |blocks|), blocks);
      && Recoverable(l, c) && HeaderBlocks(c[l.start]) == blocks
      && SameHome(l, Installed(l, c, blocks, |blocks|), Updated(d, mem, blocks))
      && SameHome(l, Recovered(l, c), Updated(d, mem, blocks))
  {
    var n := |blocks|;
    var logged := Logged(l, d, mem, blocks, n);
    var c := WithHeader(l, logged, blocks);
    HeaderRoundTrip(logged[l.start], blocks);
    InstallUpdates(l, d, mem, blocks, c);
    InstallKeepsLog(l, c, blocks, n);
  }

  /** Past its first write_head, a stopped commit leaves what a stopped recovery leaves. */
  lemma CommitIsRecovery(l: Layout, d: Disk, mem: Disk, blocks: seq<int>, k: nat)
    requires Fits(l, d) && |mem| == |d| && Transaction(l, blocks, |d|)
    requires |blocks| < k <= 2 * |blocks| + 2
    ensures
      var c := WithHeader(l, Logged(l, d, mem, blocks, |blocks|), blocks);
      && Recoverable(l, c) && k - |blocks| - 1 <= RecoveryWrites(l, c)
      && CommitImage(l, d, mem, blocks, k) == RecoveryImage(l, c, k - |blocks| - 1)
  {
    hide Logged, Installed, SameHome;
    RecoverCommitted(l, d, mem, blocks);
  }

  lemma StoppedAfterHead(l: Layout, d: Disk, mem: Disk, blocks: seq<int>, k: nat)
    requires Fits(l, d) && |mem| == |d| && Transaction(l, blocks, |d|)
    requires |blocks| < k <= 2 * |blocks| + 2
    ensures Recoverable(l, CommitImage(l, d, mem, blocks, k))
    ensures SameHome(l, Recovered(l, CommitImage(l, d, mem, blocks, k)), Updated(d, mem, blocks))
  {
    hide Logged, Installed, Updated, Recovered, RecoveryImage, CommitImage, WithHeader, Recoverable;
    var c := WithHeader(l, Logged(l, d, mem, blocks, |blocks|), blocks);
    RecoverCommitted(l, d, mem, blocks);
    CommitIsRecovery(l, d, mem, blocks, k);
    CrashedRecovery(l, c, k - |blocks| - 1);
  }

  /** A commit stopped after k writes recovers to the old or to the updated home data. */
  lemma CommitImageRecovers(l: Layout, d: Disk, mem: Disk, blocks: seq<int>, k: nat)
    requires Clean(l, d) && |mem| == |d| && Transaction(l, blocks, |d|)
    requires k <= 2 * |blocks| + 2
    ensures Recoverable(l, CommitImage(l, d, mem, blocks, k))
    ensures SameHome(l, Recovered(l, CommitImage(l, d, mem, blocks, k)),
                     if k <= |blocks| then d else Updated(d, mem, blocks))
  {
    if k <= |blocks| {
      RecoverClean(l, Logged(l, d, mem, blocks, k));
    } else {
      StoppedAfterHead(l, d, mem, blocks, k);
    }
  }

  /** Crash atomicity. Stop commit after any number k of its block writes, then stop and
      restart recovery any number of times: the home data are the old ones when the first
      write_head had not reached the disk, and all of the new ones when it had. */
  lemma CrashAtomicity(l: Layout, d: Disk, mem: Disk, blocks: seq<int>, k: nat, ks: seq<nat>)
    requires Clean(l, d) && |mem| == |d| && Transaction(l, blocks, |d|)
    requires k <= 2 * |blocks| + 2
    ensures Recoverable(l, CommitImage(l, d, mem, blocks, k))
    ensures
      var crashed := CommitImage(l, d, mem, blocks, k);
      Attempts(l, crashed, ks) ==>
        && Recoverable(l, AfterAttempts(l, crashed, ks))
        && var final := Recovered(l, AfterAttempts(l, crashed, ks));
          && Clean(l, final)
          && SameHome(l, final, if k <= |blocks| then d else Updated(d, mem, blocks))
  {
    CommitImageRecovers(l, d, mem, blocks, k);
    var crashed := CommitImage(l, d, mem, blocks, k);
    if Attempts(l, crashed, ks) {
      RecoverySurvivesCrashes(l, crashed, ks);
    }
  }

  lemma LoggedStep(l: Layout, d: Disk, mem: Disk, blocks: seq<int>, k: nat)
    requires Fits(l, d) && |mem| == |d| && Transaction(l, blocks, |d|) && k < |blocks|
    ensures Logged(l, d, mem, blocks, k + 1) == Logged(l, d, mem, blocks, k)[l.start + k + 1 := mem[blocks[k]]]
    ensures Logged(l, d, mem, blocks, k)[blocks[k]] == d[blocks[k]]
  {
    assert InLog(l, l.start + k + 1);
  }

  lemma LoggedNone(l: Layout, d: Disk, mem: Disk, blocks: seq<int>)
    requires Fits(l, d) && |mem| == |d| && Transaction(l, blocks, |d|)
    ensures Logged(l, d, mem, blocks, 0) == d
  {}

  // ----- the images each routine writes, in order

  function LogTrace(l: Layout, d: Disk, mem: Disk, blocks: seq<int>, k: nat): (r: seq<Disk>)
    requires Fits(l, d) && |mem| == |d| && Transaction(l, blocks, |d|) && k <= |blocks|
  {
    seq(k, i requires 0 <= i < k => Logged(l, d, mem, blocks, i + 1))
  }

  function InstallTrace(l: Layout, d: Disk, blocks: seq<int>, k: nat): (r: seq<Disk>)
    requires Fits(l, d) && Transaction(l, blocks, |d|) && k <= |blocks|
  {
    seq(k, i requires 0 <= i < k => Installed(l, d, blocks, i + 1))
  }

  function CommitTrace(l: Layout, d: Disk, mem: Disk, blocks: seq<int>): (r: seq<Disk>)
    requires Fits(l, d) && |mem| == |d| && Transaction(l, blocks, |d|)
  {
    var n := |blocks|;
    var c := WithHeader(l, Logged(l, d, mem, blocks, n), blocks);
    LogTrace(l, d, mem, blocks, n) + [c] + InstallTrace(l, c, blocks, n)
    + [WithHeader(l, Installed(l, c, blocks, n), [])]
  }

  function RecoveryTrace(l: Layout, d: Disk): (r: seq<Disk>)
    requires Recoverable(l, d)
  {
    var blocks := HeaderBlocks(d[l.start]);
    InstallTrace(l, d, blocks, |blocks|) + [Recovered(l, d)]
  }

  /** Entry k of the trace is the image after k+1 writes, for all of the 2n+2 writes. */
  lemma CommitTraceAt(l: Layout, d: Disk, mem: Disk, blocks: seq<int>, k: nat)
    requires Fits(l, d) && |mem| == |d| && Transaction(l, blocks, |d|)
    requires k < 2 * |blocks| + 2
    ensures |CommitTrace(l, d, mem, blocks)| == 2 * |blocks| + 2
    ensures CommitTrace(l, d, mem, blocks)[k] == CommitImage(l, d, mem, blocks, k + 1)
  {
    var n := |blocks|;
    var c := WithHeader(l, Logged(l, d, mem, blocks, n), blocks);
    if n < k <= 2 * n {
      assert CommitTrace(l, d, mem, blocks)[k] == InstallTrace(l, c, blocks, n)[k - n - 1];
    }
  }

  lemma RecoveryTraceAt(l: Layout, d: Disk, k: nat)
    requires Recoverable(l, d) && k < RecoveryWrites(l, d)
    ensures |RecoveryTrace(l, d)| == RecoveryWrites(l, d)
    ensures RecoveryTrace(l, d)[k] == RecoveryImage(l, d, k + 1)
  {}

  /** Disk and cache go through commit side by side and end up equal. */
  lemma CommitAgrees(l: Layout, d: Disk, mem: Disk, blocks: seq<int>)
    requires Fits(l, d) && |mem| == |d| && Transaction(l, blocks, |d|)
    requires forall b :: 0 <= b < |d| && b !in blocks ==> mem[b] == d[b]
    ensures
      var n := |blocks|;
      var ld, lm := Logged(l, d, mem, blocks, n), Logged(l, mem, mem, blocks, n);
      var h := Header(lm[l.start], blocks);
      && ld[l.start := h] == WithHeader(l, ld, blocks)
      && SameLog(l, lm[l.start := h], ld[l.start := h])
      && Installed(l, lm[l.start := h], blocks, n) == Installed(l, ld[l.start := h], blocks, n)
  {
    var n := |blocks|;
    var ld, lm := Logged(l, d, mem, blocks, n), Logged(l, mem, mem, blocks, n);
    assert InLog(l, l.start) && l.start !in blocks;
    InstallAgrees(l, ld[l.start := Header(lm[l.start], blocks)], lm[l.start := Header(lm[l.start], blocks)], blocks);
  }

  /** The stages of a commit that starts on disk d with cache mem, after t. */
  lemma CommitStages(l: Layout, d: Disk, mem: Disk, blocks: seq<int>, t: seq<Disk>)
    returns (h: Block, c: Disk, cm: Disk, i: Disk, e: Disk)
    requires Fits(l, d) && |mem| == |d| && Transaction(l, blocks, |d|)
    requires forall b :: 0 <= b < |d| && b !in blocks ==> mem[b] == d[b]
    ensures h == Header(Logged(l, mem, mem, blocks, |blocks|)[l.start], blocks)
    ensures Fits(l, c) && |c| == |d| && c == Logged(l, d, mem, blocks, |blocks|)[l.start := h]
    ensures cm == Logged(l, mem, mem, blocks, |blocks|)[l.start := h] && SameLog(l, cm, c)
    ensures |cm| == |d|
    ensures i == Installed(l, c, blocks, |blocks|) == Installed(l, cm, blocks, |blocks|)
    ensures |i| == |d|
    ensures e == i[l.start := Header(i[l.start], [])]
    ensures Clean(l, e) && SameHome(l, e, Updated(d, mem, blocks))
    ensures t + LogTrace(l, d, mem, blocks, |blocks|) + [c] + InstallTrace(l, c, blocks, |blocks|) + [e]
         == t + CommitTrace(l, d, mem, blocks)
  {
    var n := |blocks|;
    h := Header(Logged(l, mem, mem, blocks, n)[l.start], blocks);
    c := Logged(l, d, mem, blocks, n)[l.start := h];
    cm := Logged(l, mem, mem, blocks, n)[l.start := h];
    i := Installed(l, c, blocks, n);
    e := WithHeader(l, i, []);
    CommitAgrees(l, d, mem, blocks);
    RecoverCommitted(l, d, mem, blocks);
    Regroup(t, LogTrace(l, d, mem, blocks, n), [c], InstallTrace(l, c, blocks, n), [e]);
  }

  lemma InstallStarts(l: Layout, d: Disk, blocks: seq<int>)
    requires Fits(l, d) && Transaction(l, blocks, |d|)
    ensures Installed(l, d, blocks, 0) == d && InstallTrace(l, d, blocks, 0) == []
  {}

  /** One turn of install_trans over a cache mem whose log area is that of d. */
  lemma InstallStep(l: Layout, d: Disk, mem: Disk, blocks: seq<int>, k: nat)
    requires Fits(l, d) && SameLog(l, mem, d) && Transaction(l, blocks, |d|) && k < |blocks|
    ensures 0 <= blocks[k] < |d| && l.start + k + 1 < |d|
    ensures
      var data := Installed(l, mem, blocks, k)[l.start + k + 1];
      && Installed(l, d, blocks, k + 1) == Installed(l, d, blocks, k)[blocks[k] := data]
      && Installed(l, mem, blocks, k + 1) == Installed(l, mem, blocks, k)[blocks[k] := data]
      && InstallTrace(l, d, blocks, k + 1) == InstallTrace(l, d, blocks, k) + [Installed(l, d, blocks, k + 1)]
  {
    InstallKeepsLog(l, mem, blocks, k);
    assert InLog(l, l.start + k + 1);
  }

  lemma NothingUpdated(l: Layout, d: Disk, mem: Disk)
    requires |mem| == |d|
    ensures SameHome(l, d, Updated(d, mem, []))
  {}

  lemma Regroup<T>(t: seq<T>, a: seq<T>, b: seq<T>, c: seq<T>, d: seq<T>)
    ensures t + a + b + c + d == t + (a + b + c + d)
  {}

  // ----- log_write

  datatype LogWriteResult = Recorded | TooBig | OutsideTransaction

  /** The in-memory header after log_write of block b: absorbed when already there. */
  function Absorb(lh: seq<int>, b: int): seq<int> {
    if b in lh then lh else lh + [b]
  }

  // ----- the log itself

  class LogDevice {
    const layout: Layout
    var disk: Disk          // what survives a crash
    var cache: Disk         // what bread returns: the buffer cache over the disk
    var n: nat              // lh.n
    var block: seq<int>     // lh.block, LOGSIZE entries
    var outstanding: nat
    ghost var trace: seq<Disk> // the images since construction, oldest first

    ghost predicate Shape()
      reads this
    {
      && Fits(layout, disk)
      && |cache| == |disk|
      && |block| == LOGSIZE
      && n <= LOGSIZE
      && trace != [] && trace[|trace|-1] == disk
    }

    ghost function Pending(): seq<int>
      reads this
      requires n <= |block|
    {
      block[..n]
    }

    /** Between operations: the cache differs from the disk only at pending blocks. */
    ghost predicate Valid()
      reads this
    {
      && Shape()
      && Clean(layout, disk)
      && Transaction(layout, Pending(), |disk|)
      && forall b :: 0 <= b < |disk| && b !in Pending() ==> cache[b] == disk[b]
    }

    /** Machine start on a given image: the cache is empty, so bread reads the disk. */
    constructor Boot(l: Layout, d: Disk)
      requires Recoverable(l, d)
      ensures Shape() && layout == l && disk == d && cache == d && n == 0 && outstanding == 0
      ensures trace == [d]
    {
      layout, disk, cache, n, outstanding := l, d, d, 0, 0;
      block := seq(LOGSIZE, _ => 0);
      trace := [d];
    }

    method Bwrite(b: nat, data: Block)
      requires Shape() && b < |disk|
      modifies `disk, `cache, `trace
      ensures Shape()
      ensures disk == old(disk)[b := data] && cache == old(cache)[b := data]
      ensures trace == old(trace) + [disk]
    {
      disk := disk[b := data];
      cache := cache[b := data];
      trace := trace + [disk];
    }

    method WriteHead()
      requires Shape()
      modifies `disk, `cache, `trace
      ensures Shape()
      ensures disk == old(disk)[layout.start := Header(old(cache)[layout.start], Pending())]
      ensures cache == old(cache)[layout.start := Header(old(cache)[layout.start], Pending())]
      ensures trace == old(trace) + [disk]
    {
      var hb: seq<int> := cache[layout.start];
      hb := hb[0 := n];
      var i := 0;
      while i < n
        invariant 0 <= i <= n && |hb| == BWORDS
        invariant hb[0] == n
        invariant forall j :: 0 <= j < BWORDS ==>
          hb[j] == if j == 0 then n else if j <= i then block[j-1] else cache[layout.start][j]
      {
        hb := hb[1 + i := block[i]];
        i := i + 1;
      }
      assert hb == Header(cache[layout.start], Pending());
      Bwrite(layout.start, hb);
    }

    method ReadHead()
      requires Shape() && HeaderReadable(cache[layout.start])
      modifies `n, `block
      ensures Shape() && Pending() == HeaderBlocks(cache[layout.start])
    {
      var hb := cache[layout.start];
      n := hb[0];
      var i := 0;
      while i < n
        invariant 0 <= i <= n <= LOGSIZE && n == hb[0] && |block| == LOGSIZE
        invariant forall j :: 0 <= j < i ==> block[j] == hb[1 + j]
      {
        block := block[i := hb[1 + i]];
        i := i + 1;
      }
    }

    method WriteLog()
      requires Valid()
      modifies `disk, `cache, `trace
      ensures Shape()
      ensures trace == old(trace) + LogTrace(layout, old(disk), old(cache), Pending(), n)
      ensures disk == Logged(layout, old(disk), old(cache), Pending(), n)
      ensures cache == Logged(layout, old(cache), old(cache), Pending(), n)
    {
      ghost var d0, c0, t0 := disk, cache, trace;
      ghost var p := Pending();
      LoggedNone(layout, d0, c0, p);
      LoggedNone(layout, c0, c0, p);
      var tail := 0;
      while tail < n
        invariant 0 <= tail <= n && Shape()
        invariant |disk| == |d0|
        invariant trace == t0 + LogTrace(layout, d0, c0, p, tail)
        invariant disk == Logged(layout, d0, c0, p, tail)
        invariant cache == Logged(layout, c0, c0, p, tail)
      {
        assert p[tail] == block[tail];
        LoggedStep(layout, d0, c0, p, tail);
        LoggedStep(layout, c0, c0, p, tail);
        var from := cache[block[tail]];
        Bwrite(layout.start + tail + 1, from);
        tail := tail + 1;
      }
    }

    method InstallTrans()
      requires Shape() && Transaction(layout, Pending(), |disk|)
      requires SameLog(layout, cache, disk)
      modifies `disk, `cache, `trace
      ensures Shape()
      ensures trace == old(trace) + InstallTrace(layout, old(disk), Pending(), n)
      ensures disk == Installed(layout, old(disk), Pending(), n)
      ensures cache == Installed(layout, old(cache), Pending(), n)
    {
      hide Installed, InstallTrace, Transaction, SameLog;
      ghost var d0, c0, t0, p := disk, cache, trace, Pending();
      InstallStarts(layout, d0, p);
      InstallStarts(layout, c0, p);
      var tail := 0;
      while tail < n
        invariant 0 <= tail <= n && Shape()
        invariant |disk| == |d0|
        invariant trace == t0 + InstallTrace(layout, d0, p, tail)
        invariant disk == Installed(layout, d0, p, tail)
        invariant cache == Installed(layout, c0, p, tail)
      {
        assert p[tail] == block[tail];
        InstallStep(layout, d0, c0, p, tail);
        var lbuf := cache[layout.start + tail + 1];
        Bwrite(block[tail], lbuf);
        tail := tail + 1;
      }
    }

    /** Write-ahead commit. The images the disk passes through are those of CommitTrace. */
    method Commit()
      requires Valid()
      modifies `disk, `cache, `n, `trace
      ensures Valid() && n == 0 && disk == cache
      ensures SameHome(layout, disk, Updated(old(disk), old(cache), old(Pending())))
      ensures trace == old(trace) +
        if old(n) == 0 then [] else CommitTrace(layout, old(disk), old(cache), old(Pending()))
    {
      hide Logged, Installed, LogTrace, InstallTrace, CommitTrace, Updated, SameHome, Header, SameLog;
      ghost var d0, c0, p := disk, cache, Pending();
      NothingUpdated(layout, d0, c0);
      if n > 0 {
        ghost var h, c, cm, i, e := CommitStages(layout, d0, c0, p, trace);
        WriteLog();
        WriteHead();
        InstallTrans();
        n := 0;
        assert Pending() == [];
        WriteHead();
      }
    }

    /** Boot-time recovery. The images the disk passes through are those of RecoveryTrace. */
    method RecoverFromLog()
      requires Shape() && Recoverable(layout, disk) && cache == disk
      modifies `disk, `cache, `n, `block, `trace
      ensures Valid() && n == 0 && disk == cache
      ensures disk == Recovered(layout, old(disk))
      ensures trace == old(trace) + RecoveryTrace(layout, old(disk))
    {
      ghost var d0, t0 := disk, trace;
      ReadHead();
      ghost var p := Pending();
      InstallTrans();
      InstallKeepsLog(layout, d0, p, |p|);
      n := 0;
      assert Pending() == [];
      WriteHead();
      Regroup(t0, InstallTrace(layout, d0, p, |p|), [disk], [], []);
    }

    /** Record b, whose cached contents the caller has replaced by data. */
    method LogWrite(b: nat, data: Block) returns (r: LogWriteResult)
      requires Valid() && b < |disk| && !InLog(layout, b)
      modifies `cache, `n, `block
      ensures r.TooBig? <==> old(n) >= LOGSIZE || old(n) >= layout.size - 1
      ensures r.OutsideTransaction? <==> !r.TooBig? && outstanding < 1
      ensures !r.Recorded? ==> cache == old(cache) && n == old(n) && block == old(block)
      ensures r.Recorded? ==> Valid()
      ensures r.Recorded? ==> cache == old(cache)[b := data] && Pending() == Absorb(old(Pending()), b)
    {
      if n >= LOGSIZE || n >= layout.size - 1 {
        return TooBig;
      }
      if outstanding < 1 {
        return OutsideTransaction;
      }
      cache := cache[b := data];
      ghost var p := Pending();
      var i := 0;
      while i < n
        invariant 0 <= i <= n
        invariant b !in block[..i]
      {
        if block[i] == b {
          break;
        }
        i := i + 1;
      }
      block := block[i := b];
      if i == n {
        n := n + 1;
        assert Pending() == p + [b];
      } else {
        assert p[i] == b;
        assert Pending() == p;
      }
      r := Recorded;
    }
  }
}
