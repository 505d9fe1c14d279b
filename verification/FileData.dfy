/** The bytes of a file behind its block addresses (fs.c), and what writing a file logs. */
module FileData {
  import opened Common
  import opened DiskFormat
  import opened Ownership
  import opened Sets

  const MAXBYTES := MAXFILE * BSIZE

  function FileByte(disk: seq<seq<Byte>>, row: Row, o: nat): Byte
    requires |row| == NSLOT && o < MAXBYTES
  {
    var a := row[SlotOf(o / BSIZE)];
    if a < |disk| && IsBlock(disk[a]) then disk[a][o % BSIZE] else 0
  }

  /** The first n bytes of a file. */
  function Content(disk: seq<seq<Byte>>, row: Row, n: nat): (c: seq<Byte>)
    requires |row| == NSLOT && n <= MAXBYTES
    ensures |c| == n
  {
    seq(n, o requires 0 <= o < n => FileByte(disk, row, o))
  }

  /** A file of n bytes has exactly the blocks those bytes need. */
  predicate HoleFree(row: Row, n: nat) {
    && |row| == NSLOT
    && (forall bn :: 0 <= bn < MAXFILE ==> (row[SlotOf(bn)] != 0 <==> bn * BSIZE < n))
    && (row[NDIRECT] != 0 <==> NDIRECT * BSIZE < n)
  }

  // ----- byte sequences

  /** c with s written over it from off on. */
  function Overwrite(c: seq<Byte>, off: nat, s: seq<Byte>): seq<Byte>
    requires off <= |c|
  {
    c[..off] + s + if off + |s| < |c| then c[off + |s|..] else []
  }

  lemma OverwriteAt(c: seq<Byte>, off: nat, s: seq<Byte>, o: nat)
    requires off <= |c| && o < Max(|c|, off + |s|)
    ensures |Overwrite(c, off, s)| == Max(|c|, off + |s|)
    ensures Overwrite(c, off, s)[o] == if off <= o < off + |s| then s[o - off] else c[o]
  {}

  /** Writing in pieces writes the whole. */
  lemma OverwriteMore(c: seq<Byte>, off: nat, s: seq<Byte>, t: seq<Byte>)
    requires off <= |c|
    ensures
      && off + |s| <= |Overwrite(c, off, s)|
      && Overwrite(Overwrite(c, off, s), off + |s|, t) == Overwrite(c, off, s + t)
  {}

  /** What was written reads back, and bytes outside stay. */
  lemma ReadBack(c: seq<Byte>, off: nat, s: seq<Byte>, o: nat, n: nat)
    requires off <= |c| && o + n <= |Overwrite(c, off, s)|
    ensures off + |s| <= |Overwrite(c, off, s)| && Overwrite(c, off, s)[off..off + |s|] == s
    ensures o + n <= off || (off + |s| <= o && o + n <= |c|) ==> Overwrite(c, off, s)[o..o + n] == c[o..o + n]
  {}

  /** s copied into block d at position p. */
  function Splice(d: seq<Byte>, p: nat, s: seq<Byte>): (d': seq<Byte>)
    requires IsBlock(d) && p + |s| <= BSIZE
    ensures IsBlock(d')
  {
    d[..p] + s + d[p + |s|..]
  }

  // ----- one block of writei

  /** bmap gave block bn an address: only that slot and the indirect one may have been filled. */
  predicate Extends(row: Row, row': Row, bn: nat) {
    && |row| == |row'| == NSLOT && bn < MAXFILE
    && (forall k :: 0 <= k < NSLOT && k != SlotOf(bn) && k != NDIRECT ==> row'[k] == row[k])
    && (bn < NDIRECT || row[NDIRECT] != 0 ==> row'[NDIRECT] == row[NDIRECT])
    && (bn >= NDIRECT ==> row'[NDIRECT] != 0)
    && row'[SlotOf(bn)] != 0
    && (row[SlotOf(bn)] != 0 ==> row' == row)
  }

  /** Blocks that hold file data have not changed. */
  predicate Kept(disk: seq<seq<Byte>>, disk': seq<seq<Byte>>, owner: Owner) {
    && |disk| == |disk'|
    && (forall a :: a in owner && owner[a].k != NDIRECT && a < |disk| ==> disk'[a] == disk[a])
  }

  lemma ExtendHoleFree(row: Row, row': Row, off: nat, m: nat, top: nat)
    requires HoleFree(row, top) && off <= top <= MAXBYTES && 0 < m && off % BSIZE + m <= BSIZE && off + m <= MAXBYTES
    requires Extends(row, row', off / BSIZE)
    ensures HoleFree(row', Max(top, off + m))
  {
    var bn, top' := off / BSIZE, Max(top, off + m);
    assert row[SlotOf(bn)] != 0 <==> bn * BSIZE < top;
    forall b | 0 <= b < MAXFILE
      ensures row'[SlotOf(b)] != 0 <==> b * BSIZE < top'
    {
      assert row[SlotOf(b)] != 0 <==> b * BSIZE < top;
      if b != bn && row[SlotOf(bn)] == 0 {
        assert SlotOf(b) != SlotOf(bn) && SlotOf(b) != NDIRECT;
      }
    }
  }

  lemma SlotsApart(b: nat, bn: nat)
    ensures SlotOf(b) != NDIRECT && (b != bn ==> SlotOf(b) != SlotOf(bn))
  {}

  /** A data block's address is owned by its slot. */
  lemma DataHeld(l: Layout, slots: seq<Row>, owner: Owner, i: nat, b: nat)
    requires Inverse(l, slots, owner) && i < |slots| && b < MAXFILE
    ensures
      var a := slots[i][SlotOf(b)];
      a != 0 ==> l.nmeta <= a < l.size && a in owner && owner[a] == Slot(i, SlotOf(b)) && owner[a].k != NDIRECT
  {
    assert Recorded(owner, slots[i][SlotOf(b)], i, SlotOf(b));
  }

  /** Other files keep their bytes when a block of inode i is allocated and written. */
  lemma OthersKeep(l: Layout, slots: seq<Row>, owner: Owner, disk: seq<seq<Byte>>, disk': seq<seq<Byte>>, j: nat,
                   n: nat, a: nat, d: seq<Byte>)
    requires Inverse(l, slots, owner) && j < |slots| && HoleFree(slots[j], n) && n <= MAXBYTES
    requires Kept(disk, disk', owner) && Blocks(l, disk) && a < |disk'|
    requires a in owner ==> owner[a].inum != j
    ensures Content(disk'[a := d], slots[j], n) == Content(disk, slots[j], n)
  {
    var row, disk1 := slots[j], disk'[a := d];
    forall o | 0 <= o < n
      ensures FileByte(disk1, row, o) == FileByte(disk, row, o)
    {
      assert row[SlotOf(o / BSIZE)] != 0 by {
        assert o / BSIZE * BSIZE < n;
      }
      DataHeld(l, slots, owner, j, o / BSIZE);
    }
  }

  /** One block of writei: allocate block off/BSIZE if need be, and copy s into it. */
  lemma WriteStep(l: Layout, slots: seq<Row>, owner: Owner, slots': seq<Row>, owner': Owner,
                  disk: seq<seq<Byte>>, disk': seq<seq<Byte>>, i: nat, off: nat, s: seq<Byte>, top: nat)
    requires Inverse(l, slots, owner) && Inverse(l, slots', owner') && i < |slots| == |slots'|
    requires Kept(disk, disk', owner) && Blocks(l, disk) && Blocks(l, disk')
    requires HoleFree(slots[i], top) && off <= top <= MAXBYTES && 0 < |s| && off % BSIZE + |s| <= BSIZE
    requires off + |s| <= MAXBYTES
    requires Extends(slots[i], slots'[i], off / BSIZE)
    ensures
      var a, top' := slots'[i][SlotOf(off / BSIZE)], Max(top, off + |s|);
      && a < |disk'| && HoleFree(slots'[i], top')
      && Content(disk'[a := Splice(disk'[a], off % BSIZE, s)], slots'[i], top')
         == Overwrite(Content(disk, slots[i], top), off, s)
  {
    hide HoleFree;
    var row, row', bn, top' := slots[i], slots'[i], off / BSIZE, Max(top, off + |s|);
    var a := row'[SlotOf(bn)];
    ExtendHoleFree(row, row', off, |s|, top);
    DataHeld(l, slots', owner', i, bn);
    var disk1 := disk'[a := Splice(disk'[a], off % BSIZE, s)];
    var c := Content(disk, row, top);
    forall o | 0 <= o < top'
      ensures FileByte(disk1, row', o) == Overwrite(c, off, s)[o]
    {
      OverwriteAt(c, off, s, o);
      if off <= o < off + |s| {
        SameBlock(off, o, |s|);
      } else {
        ByteKept(l, slots, owner, slots', owner', disk, disk', i, off, s, top, o);
      }
    }
    OverwriteAt(c, off, s, off);
  }

  lemma SameBlock(off: nat, o: nat, m: nat)
    requires off <= o < off + m && off % BSIZE + m <= BSIZE
    ensures o / BSIZE == off / BSIZE && o % BSIZE == off % BSIZE + (o - off)
  {}

  /** Bytes that lie in one block are a stretch of that block. */
  lemma PieceRead(disk: seq<seq<Byte>>, row: Row, n: nat, o: nat, m: nat)
    requires |row| == NSLOT && o + m <= n <= MAXBYTES && o % BSIZE + m <= BSIZE && o / BSIZE < MAXFILE
    requires row[SlotOf(o / BSIZE)] < |disk| && IsBlock(disk[row[SlotOf(o / BSIZE)]])
    ensures disk[row[SlotOf(o / BSIZE)]][o % BSIZE..o % BSIZE + m] == Content(disk, row, n)[o..o + m]
  {
    var a := row[SlotOf(o / BSIZE)];
    forall x | o <= x < o + m
      ensures Content(disk, row, n)[x] == disk[a][x - o + o % BSIZE]
    {
      SameBlock(o, x, m);
    }
  }

  lemma BlockStart(o: nat, n: nat)
    requires o < n
    ensures o / BSIZE * BSIZE < n
  {}

  lemma ByteKept(l: Layout, slots: seq<Row>, owner: Owner, slots': seq<Row>, owner': Owner,
                 disk: seq<seq<Byte>>, disk': seq<seq<Byte>>, i: nat, off: nat, s: seq<Byte>, top: nat, o: nat)
    requires Inverse(l, slots, owner) && Inverse(l, slots', owner') && i < |slots| == |slots'|
    requires Kept(disk, disk', owner) && Blocks(l, disk) && Blocks(l, disk')
    requires HoleFree(slots[i], top) && off <= top <= MAXBYTES && off % BSIZE + |s| <= BSIZE && off + |s| <= MAXBYTES
    requires Extends(slots[i], slots'[i], off / BSIZE)
    requires o < top && !(off <= o < off + |s|)
    ensures
      var a := slots'[i][SlotOf(off / BSIZE)];
      a < |disk'| && FileByte(disk'[a := Splice(disk'[a], off % BSIZE, s)], slots'[i], o) == FileByte(disk, slots[i], o)
  {
    var row, row', bn, b := slots[i], slots'[i], off / BSIZE, o / BSIZE;
    BlockStart(o, top);
    assert row[SlotOf(b)] != 0;
    DataHeld(l, slots, owner, i, b);
    DataHeld(l, slots', owner', i, bn);
    SlotsApart(b, bn);
    if b != bn {
      assert row'[SlotOf(b)] == row[SlotOf(b)];
      HeldOnce(l, slots', owner', i, SlotOf(b), i, SlotOf(bn));
    }
  }

  // ----- what writei logs

  const IPB := 8

  datatype LogBlock = BitmapBlock(k: nat) | InodeBlock(k: nat) | DataBlock(a: nat)

  /** What bmap logs for block bn: nothing if it had an address; else the new block, its bitmap
      block, and for an indirect address the indirect block, perhaps newly allocated too. */
  function BmapLog(row: Row, row': Row, bn: nat): set<LogBlock>
    requires |row| == |row'| == NSLOT && bn < MAXFILE
  {
    if row[SlotOf(bn)] != 0 then {}
    else
      var a, ind := row'[SlotOf(bn)], row'[NDIRECT];
      {DataBlock(a), BitmapBlock(a / BPB)} +
      (if bn < NDIRECT then {}
       else if row[NDIRECT] != 0 then {DataBlock(ind)}
       else {DataBlock(ind), BitmapBlock(ind / BPB)})
  }

  function BlockLog(row: Row, row': Row, bn: nat): set<LogBlock>
    requires |row| == |row'| == NSLOT && bn < MAXFILE
  {
    var a := row'[SlotOf(bn)];
    if row[SlotOf(bn)] != 0 then {DataBlock(a)} else {DataBlock(a), BitmapBlock(a / BPB)}
  }

  /** The data blocks lo..hi and the bitmap blocks of those among them that are new. */
  function DataLog(row: Row, row': Row, lo: nat, hi: nat): set<LogBlock>
    requires |row| == |row'| == NSLOT && hi <= MAXFILE
    decreases hi
  {
    if hi <= lo then {} else DataLog(row, row', lo, hi - 1) + BlockLog(row, row', hi - 1)
  }

  /** The indirect block, if the last block is new and needs it, and its bitmap block if it is new. */
  function IndirectLog(row: Row, row': Row, hi: nat): set<LogBlock>
    requires |row| == |row'| == NSLOT && hi <= MAXFILE
  {
    if hi <= NDIRECT || row[SlotOf(hi - 1)] != 0 then {}
    else if row[NDIRECT] != 0 then {DataBlock(row'[NDIRECT])}
    else {DataBlock(row'[NDIRECT]), BitmapBlock(row'[NDIRECT] / BPB)}
  }

  function WriteLog(row: Row, row': Row, lo: nat, hi: nat): set<LogBlock>
    requires |row| == |row'| == NSLOT && hi <= MAXFILE
  {
    DataLog(row, row', lo, hi) + IndirectLog(row, row', hi)
  }

  lemma {:induction false} DataLogSame(row: Row, row1: Row, row2: Row, lo: nat, hi: nat)
    requires |row| == |row1| == |row2| == NSLOT && hi <= MAXFILE
    requires forall b :: 0 <= b < hi ==> row1[SlotOf(b)] == row2[SlotOf(b)]
    ensures DataLog(row, row1, lo, hi) == DataLog(row, row2, lo, hi)
  {
    if hi > lo {
      DataLogSame(row, row1, row2, lo, hi - 1);
    }
  }

  /** One more block: row0 before the write, row before this block, row' after it. */
  lemma WriteLogStep(row0: Row, size: nat, row: Row, row': Row, lo: nat, bn: nat, top: nat)
    requires HoleFree(row0, size) && HoleFree(row, top) && Extends(row, row', bn) && lo <= bn
    requires top == size || (size < top && lo < bn && (bn - 1) * BSIZE < top <= bn * BSIZE)
    requires bn * BSIZE <= top && row0[SlotOf(bn)] == row[SlotOf(bn)]
    requires row[NDIRECT] == row0[NDIRECT] || row0[NDIRECT] == 0
    ensures WriteLog(row0, row', lo, bn + 1)
         == WriteLog(row0, row, lo, bn) + BmapLog(row, row', bn) + {DataBlock(row'[SlotOf(bn)])}
  {
    forall b | 0 <= b < bn
      ensures row[SlotOf(b)] == row'[SlotOf(b)]
    {
      SlotsApart(b, bn);
    }
    DataLogSame(row0, row, row', lo, bn);
    if bn > 0 {
      assert row0[SlotOf(bn - 1)] != 0 <==> (bn - 1) * BSIZE < size;
    }
  }

  /** The log so far: blocks lo..hi are written, the rest of the file is as before. */
  predicate Logging(row0: Row, row: Row, lo: nat, hi: nat, logged0: set<LogBlock>, logged: set<LogBlock>) {
    && |row0| == |row| == NSLOT && lo <= hi <= MAXFILE
    && logged == logged0 + WriteLog(row0, row, lo, hi)
    && (forall b :: hi <= b < MAXFILE ==> row[SlotOf(b)] == row0[SlotOf(b)])
    && (row[NDIRECT] == row0[NDIRECT] || row0[NDIRECT] == 0)
  }

  lemma LoggingStep(row0: Row, size: nat, row: Row, row': Row, lo: nat, bn: nat, top: nat, logged0: set<LogBlock>,
                    logged: set<LogBlock>)
    requires HoleFree(row0, size) && HoleFree(row, top) && Extends(row, row', bn)
    requires Logging(row0, row, lo, bn, logged0, logged)
    requires top == size || (size < top && lo < bn && (bn - 1) * BSIZE < top <= bn * BSIZE)
    requires bn * BSIZE <= top
    ensures Logging(row0, row', lo, bn + 1, logged0, logged + BmapLog(row, row', bn) + {DataBlock(row'[SlotOf(bn)])})
  {
    assert row[SlotOf(bn)] == row0[SlotOf(bn)];
    WriteLogStep(row0, size, row, row', lo, bn, top);
    hide WriteLog, BmapLog, HoleFree;
    forall b | bn + 1 <= b < MAXFILE
      ensures row'[SlotOf(b)] == row0[SlotOf(b)]
    {
      SlotsApart(b, bn);
    }
  }

  lemma BlockLogSize(row: Row, row': Row, bn: nat)
    requires |row| == |row'| == NSLOT && bn < MAXFILE
    ensures |BlockLog(row, row', bn)| <= if row[SlotOf(bn)] != 0 then 1 else 2
  {}

  /** How many of the blocks lo..hi are new. */
  function Fresh(row: Row, lo: nat, hi: nat): nat
    requires |row| == NSLOT && hi <= MAXFILE
    decreases hi
  {
    if hi <= lo then 0 else Fresh(row, lo, hi - 1) + if row[SlotOf(hi - 1)] != 0 then 0 else 1
  }

  lemma {:induction false} FreshBound(row: Row, lo: nat, hi: nat)
    requires |row| == NSLOT && lo <= hi <= MAXFILE
    ensures Fresh(row, lo, hi) <= hi - lo
    ensures lo < hi && row[SlotOf(lo)] != 0 ==> Fresh(row, lo, hi) <= hi - lo - 1
    decreases hi
  {
    if lo < hi {
      FreshBound(row, lo, hi - 1);
    }
  }

  lemma {:induction false} DataLogSize(row: Row, row': Row, lo: nat, hi: nat)
    requires |row| == |row'| == NSLOT && lo <= hi <= MAXFILE
    ensures |DataLog(row, row', lo, hi)| <= hi - lo + Fresh(row, lo, hi)
    decreases hi
  {
    hide BlockLog, DataLog;
    DataLogLast(row, row', lo, hi);
    if lo < hi {
      DataLogSize(row, row', lo, hi - 1);
      BlockLogSize(row, row', hi - 1);
      UnionSize(DataLog(row, row', lo, hi - 1), BlockLog(row, row', hi - 1));
    }
  }

  lemma DataLogLast(row: Row, row': Row, lo: nat, hi: nat)
    requires |row| == |row'| == NSLOT && lo <= hi <= MAXFILE
    ensures lo == hi ==> DataLog(row, row', lo, hi) == {}
    ensures lo < hi ==> DataLog(row, row', lo, hi) == DataLog(row, row', lo, hi - 1) + BlockLog(row, row', hi - 1)
  {}

  function Ceil(n: nat): nat {
    (n + BSIZE - 1) / BSIZE
  }

  /** Blocks lo..hi that a write of n bytes at off touches. */
  lemma ChunkBlocks(off: nat, n: nat)
    requires 0 < n <= 3 * BSIZE
    ensures Ceil(off + n) - off / BSIZE <= if off % BSIZE == 0 then 3 else 4
  {}

  /** A chunk of at most three blocks' worth of bytes, anywhere up to the end of a hole-free
      file, logs at most ten distinct blocks, and at most nine if it is aligned. */
  lemma ChunkBudget(row: Row, row': Row, size: nat, off: nat, n: nat, inode: LogBlock)
    requires HoleFree(row, size) && |row'| == NSLOT && off <= size <= MAXBYTES && 0 < n <= 3 * BSIZE
    requires off + n <= MAXBYTES
    ensures Ceil(off + n) <= MAXFILE
    ensures |WriteLog(row, row', off / BSIZE, Ceil(off + n)) + {inode}| <= if off % BSIZE == 0 then 9 else 10
  {
    var lo, hi := off / BSIZE, Ceil(off + n);
    ChunkBlocks(off, n);
    DataLogSize(row, row', lo, hi);
    FreshBound(row, lo, hi);
    if off % BSIZE != 0 {
      assert lo * BSIZE < size;
      assert row[SlotOf(lo)] != 0;
    }
    UnionSize(DataLog(row, row', lo, hi), IndirectLog(row, row', hi));
    UnionSize(WriteLog(row, row', lo, hi), {inode});
  }

  // ----- the whole of writei

  datatype Snap = Snap(disk: seq<seq<Byte>>, inodes: seq<Inode>, slots: seq<Row>)

  /** Inode i's block bn has been given an address; nothing else happened to any file. */
  predicate Mapped(s: Snap, t: Snap, owner: Owner, i: nat, bn: nat) {
    && i < |s.slots| == |t.slots| == |s.inodes| == |t.inodes|
    && (forall j :: 0 <= j < |s.slots| && j != i ==> t.slots[j] == s.slots[j] && t.inodes[j] == s.inodes[j])
    && t.inodes[i].size == s.inodes[i].size
    && Extends(s.slots[i], t.slots[i], bn)
    && (s.slots[i][SlotOf(bn)] != 0 ==> t.inodes == s.inodes)
    && (s.slots[i][SlotOf(bn)] == 0 ==> t.slots[i][SlotOf(bn)] !in owner)
    && Kept(s.disk, t.disk, owner)
  }

  /** File j of a hole-free snapshot. */
  predicate FileOk(s: Snap, j: nat) {
    && j < |s.slots| == |s.inodes| && |s.slots[j]| == NSLOT && s.inodes[j].size <= MAXBYTES
    && HoleFree(s.slots[j], s.inodes[j].size)
  }

  predicate SameFile(s0: Snap, s: Snap, j: nat) {
    && FileOk(s0, j) && FileOk(s, j) && s.inodes[j] == s0.inodes[j] && s.slots[j] == s0.slots[j]
    && Content(s.disk, s.slots[j], s.inodes[j].size) == Content(s0.disk, s0.slots[j], s0.inodes[j].size)
  }

  /** Inode i, whose size field still says `size`, with `done` written at off. */
  predicate Written(s0: Snap, s: Snap, i: nat, off: nat, done: seq<Byte>) {
    && FileOk(s0, i) && i < |s.slots| == |s.inodes| && |s.slots[i]| == NSLOT && s.inodes[i].size == s0.inodes[i].size
    && off <= s0.inodes[i].size && off + |done| <= MAXBYTES
    && HoleFree(s.slots[i], Max(s0.inodes[i].size, off + |done|))
    && Content(s.disk, s.slots[i], Max(s0.inodes[i].size, off + |done|))
       == Overwrite(Content(s0.disk, s0.slots[i], s0.inodes[i].size), off, done)
    && (off + |done| <= s0.inodes[i].size ==> s.inodes[i] == s0.inodes[i])
  }

  predicate Progress(s0: Snap, s: Snap, i: nat, off: nat, done: seq<Byte>) {
    && |s.slots| == |s.inodes| == |s0.slots| == |s0.inodes|
    && Written(s0, s, i, off, done)
    && (forall j :: 0 <= j < |s0.slots| && j != i ==> SameFile(s0, s, j))
  }

  lemma ProgressStart(s0: Snap, i: nat, off: nat)
    requires i < |s0.slots| == |s0.inodes| && off <= s0.inodes[i].size
    requires forall j :: 0 <= j < |s0.slots| ==> FileOk(s0, j)
    ensures Progress(s0, s0, i, off, [])
  {
    assert FileOk(s0, i);
  }

  /** piece lies within one block of the file. */
  predicate Fits(o: nat, piece: seq<Byte>) {
    0 < |piece| && o % BSIZE + |piece| <= BSIZE && o + |piece| <= MAXBYTES
  }

  predicate CanStore(t: Snap, i: nat, o: nat, piece: seq<Byte>) {
    && Fits(o, piece) && i < |t.slots| && |t.slots[i]| == NSLOT
    && t.slots[i][SlotOf(o / BSIZE)] < |t.disk| && IsBlock(t.disk[t.slots[i][SlotOf(o / BSIZE)]])
  }

  /** piece copied into the block that holds byte o of inode i. */
  function Stored(t: Snap, i: nat, o: nat, piece: seq<Byte>): Snap
    requires CanStore(t, i, o, piece)
  {
    var a := t.slots[i][SlotOf(o / BSIZE)];
    t.(disk := t.disk[a := Splice(t.disk[a], o % BSIZE, piece)])
  }

  lemma WrittenStep(l: Layout, s0: Snap, s: Snap, owner: Owner, t: Snap, owner': Owner, i: nat, off: nat,
                    done: seq<Byte>, piece: seq<Byte>)
    requires Written(s0, s, i, off, done) && Inverse(l, s.slots, owner) && Inverse(l, t.slots, owner')
    requires Blocks(l, s.disk) && Blocks(l, t.disk) && Mapped(s, t, owner, i, (off + |done|) / BSIZE)
    requires Fits(off + |done|, piece)
    ensures CanStore(t, i, off + |done|, piece) && Written(s0, Stored(t, i, off + |done|, piece), i, off, done + piece)
  {
    hide HoleFree, Extends, Content, Overwrite, Kept, Inverse, Blocks, Splice, SlotOf;
    var size, o := s0.inodes[i].size, off + |done|;
    SameSlot(s.slots[i], t.slots[i], o / BSIZE);
    Storable(l, t, owner', i, o, piece);
    Exists(s.slots[i], Max(size, o), o);
    WriteStep(l, s.slots, owner, t.slots, owner', s.disk, t.disk, i, o, piece, Max(size, o));
    assert Max(Max(size, o), o + |piece|) == Max(size, off + |done + piece|);
    OverwriteMore(Content(s0.disk, s0.slots[i], size), off, done, piece);
  }

  lemma Storable(l: Layout, t: Snap, owner: Owner, i: nat, o: nat, piece: seq<Byte>)
    requires Inverse(l, t.slots, owner) && Blocks(l, t.disk) && i < |t.slots| && Fits(o, piece)
    requires t.slots[i][SlotOf(o / BSIZE)] != 0
    ensures CanStore(t, i, o, piece)
  {
    DataHeld(l, t.slots, owner, i, o / BSIZE);
  }

  /** Every byte of a hole-free file has its block. */
  lemma Exists(row: Row, n: nat, o: nat)
    requires HoleFree(row, n) && o / BSIZE < MAXFILE
    ensures o < n ==> row[SlotOf(o / BSIZE)] != 0
  {
    if o < n {
      BlockStart(o, n);
    }
  }

  /** After each block, the file is the old file with that much more written over it. */
  lemma ProgressStep(l: Layout, s0: Snap, s: Snap, owner: Owner, t: Snap, owner': Owner, i: nat, off: nat,
                     done: seq<Byte>, piece: seq<Byte>)
    requires Progress(s0, s, i, off, done) && Inverse(l, s.slots, owner) && Inverse(l, t.slots, owner')
    requires Blocks(l, s.disk) && Blocks(l, t.disk) && Mapped(s, t, owner, i, (off + |done|) / BSIZE)
    requires Fits(off + |done|, piece)
    ensures CanStore(t, i, off + |done|, piece) && Progress(s0, Stored(t, i, off + |done|, piece), i, off, done + piece)
  {
    WrittenStep(l, s0, s, owner, t, owner', i, off, done, piece);
    hide Written, Extends, Content, HoleFree, Splice, Inverse;
    var o := off + |done|;
    var t' := Stored(t, i, o, piece);
    DataHeld(l, s.slots, owner, i, o / BSIZE);
    SameSlot(s.slots[i], t.slots[i], o / BSIZE);
    hide SameFile;
    forall j | 0 <= j < |s0.slots| && j != i
      ensures SameFile(s0, t', j)
    {
      SameStep(l, s0, s, owner, t, i, o, piece, j);
    }
  }

  lemma SameStep(l: Layout, s0: Snap, s: Snap, owner: Owner, t: Snap, i: nat, o: nat, piece: seq<Byte>, j: nat)
    requires SameFile(s0, s, j) && Inverse(l, s.slots, owner) && Blocks(l, s.disk) && Kept(s.disk, t.disk, owner)
    requires CanStore(t, i, o, piece) && |t.slots| == |t.inodes| && j < |t.slots|
    requires t.slots[j] == s.slots[j] && t.inodes[j] == s.inodes[j]
    requires
      var a := t.slots[i][SlotOf(o / BSIZE)];
      a in owner ==> owner[a].inum != j
    ensures SameFile(s0, Stored(t, i, o, piece), j)
  {
    hide HoleFree, Content;
    var a := t.slots[i][SlotOf(o / BSIZE)];
    OthersKeep(l, s.slots, owner, s.disk, t.disk, j, s.inodes[j].size, a, Splice(t.disk[a], o % BSIZE, piece));
  }

  lemma SameSlot(row: Row, row': Row, bn: nat)
    requires Extends(row, row', bn)
    ensures row'[SlotOf(bn)] != 0 && (row[SlotOf(bn)] != 0 ==> row'[SlotOf(bn)] == row[SlotOf(bn)])
  {}

  // ----- bookkeeping of the copy loop

  /** One past the last block touched by the first n bytes from off. */
  function TouchedEnd(off: nat, n: nat): nat {
    if n == 0 then off / BSIZE else Ceil(off + n)
  }

  lemma LoggingStart(row0: Row, size: nat, off: nat, logged: set<LogBlock>)
    requires HoleFree(row0, size) && off <= size <= MAXBYTES
    ensures Logging(row0, row0, off / BSIZE, TouchedEnd(off, 0), logged, logged)
  {
    var lo := off / BSIZE;
    if lo > 0 {
      assert (lo - 1) * BSIZE < size;
      assert row0[SlotOf(lo - 1)] != 0;
    }
    assert WriteLog(row0, row0, lo, lo) == {};
  }

  lemma InProgress(s0: Snap, s: Snap, i: nat, off: nat, done: seq<Byte>)
    requires Progress(s0, s, i, off, done)
    ensures i < |s.slots| == |s.inodes| == |s0.slots| == |s0.inodes| && off <= s0.inodes[i].size
    ensures HoleFree(s0.slots[i], s0.inodes[i].size)
    ensures HoleFree(s.slots[i], Max(s0.inodes[i].size, off + |done|))
  {}

  lemma Piece(off: nat, tot: nat, n: nat, m: nat)
    requires tot < n && m == (if n - tot < BSIZE - (off + tot) % BSIZE then n - tot else BSIZE - (off + tot) % BSIZE)
    requires 0 < tot ==> (off + tot) % BSIZE == 0
    ensures 0 < m && (tot + m < n ==> (off + tot + m) % BSIZE == 0)
    ensures TouchedEnd(off, tot) == (off + tot) / BSIZE && TouchedEnd(off, tot + m) == (off + tot) / BSIZE + 1
    ensures 0 < tot ==> off / BSIZE < (off + tot) / BSIZE && ((off + tot) / BSIZE) * BSIZE == off + tot
  {}

  lemma MappedRow(s: Snap, t: Snap, owner: Owner, i: nat, bn: nat)
    requires Mapped(s, t, owner, i, bn)
    ensures i < |t.slots| && Extends(s.slots[i], t.slots[i], bn)
  {}

  lemma StoreKeeps(l: Layout, bitmap: seq<seq<bv8>>, t: Snap, owner: Owner, i: nat, o: nat, piece: seq<Byte>)
    requires Core(l, bitmap, t.disk, t.inodes, t.slots, owner) && CanStore(t, i, o, piece)
    requires t.slots[i][SlotOf(o / BSIZE)] != 0
    ensures Core(l, bitmap, Stored(t, i, o, piece).disk, t.inodes, t.slots, owner)
  {
    DataHeld(l, t.slots, owner, i, o / BSIZE);
    var a := t.slots[i][SlotOf(o / BSIZE)];
    WriteData(l, bitmap, t.disk, t.inodes, t.slots, owner, a, Splice(t.disk[a], o % BSIZE, piece));
  }

  // ----- truncation

  /** itrunc frees the direct slots, then those in the indirect block, then the indirect block. */
  function Order(p: nat): nat {
    if p < NDIRECT then p else if p < MAXFILE then p + 1 else NDIRECT
  }

  predicate Gone(k: nat, p: nat) {
    if k < NDIRECT then k < p else if k == NDIRECT then p > MAXFILE else k - 1 < p
  }

  /** The first p slots of inode i, in that order, are freed; everything else is as in slots0. */
  predicate Cutting(l: Layout, bitmap: seq<seq<bv8>>, slots0: seq<Row>, slots: seq<Row>, owner: Owner, i: nat, p: nat) {
    && Inverse(l, slots, owner) && Bits(l, bitmap, owner) && Rows(slots0) && i < |slots| == |slots0|
    && (forall j :: 0 <= j < |slots| && j != i ==> slots[j] == slots0[j])
    && (forall k :: 0 <= k < NSLOT ==> slots[i][k] == if Gone(k, p) then 0 else slots0[i][k])
  }

  lemma GoneNext(k: nat, p: nat)
    requires k < NSLOT && p < NSLOT
    ensures Order(p) < NSLOT && !Gone(Order(p), p) && (Gone(k, p + 1) <==> k == Order(p) || Gone(k, p))
  {}

  /** No double free: the next slot's block is still marked, and freeing it keeps the rest. */
  lemma CutStep(l: Layout, bitmap: seq<seq<bv8>>, slots0: seq<Row>, slots: seq<Row>, owner: Owner, i: nat, p: nat)
    requires LayoutOk(l) && Cutting(l, bitmap, slots0, slots, owner, i, p) && p < NSLOT
    ensures
      var a := slots0[i][Order(p)];
      && slots[i][Order(p)] == a
      && (a == 0 ==> Cutting(l, bitmap, slots0, slots, owner, i, p + 1))
      && (a != 0 ==>
            && l.nmeta <= a < l.size && Marked(bitmap, a)
            && Cutting(l, ClearBit(bitmap, a), slots0, Put(slots, i, Order(p), 0), Dropped(owner, a), i, p + 1))
  {
    hide Gone, Bits, Marked;
    var k := Order(p);
    GoneNext(k, p);
    var a := slots[i][k];
    forall k' | 0 <= k' < NSLOT
      ensures Put(slots, i, k, 0)[i][k'] == if Gone(k', p + 1) then 0 else slots0[i][k']
    {
      GoneNext(k', p);
      PutAt(slots, i, k, 0, i, k');
    }
    if a != 0 {
      assert Recorded(owner, a, i, k);
      assert Held(l, slots, a, owner[a]);
      TakeInverse(l, slots, owner, i, k);
      TakeBits(l, bitmap, owner, a);
    } else {
      assert slots[i][k := 0] == slots[i];
      assert Put(slots, i, k, 0) == slots;
    }
  }

  /** At the end exactly inode i's blocks are free. */
  lemma CutOwner(l: Layout, slots0: seq<Row>, owner0: Owner, bitmap: seq<seq<bv8>>, slots: seq<Row>, owner: Owner,
                 i: nat, a: nat)
    requires LayoutOk(l) && Inverse(l, slots0, owner0) && Cutting(l, bitmap, slots0, slots, owner, i, NSLOT)
    ensures a in owner <==> a in owner0 && owner0[a].inum != i
    ensures a in owner ==> owner[a] == owner0[a]
  {
    hide Bits;
    if a in owner {
      assert Held(l, slots, a, owner[a]);
      assert Recorded(owner0, slots0[owner[a].inum][owner[a].k], owner[a].inum, owner[a].k);
    }
    if a in owner0 {
      assert Held(l, slots0, a, owner0[a]);
      if owner0[a].inum != i {
        assert Recorded(owner, slots[owner0[a].inum][owner0[a].k], owner0[a].inum, owner0[a].k);
      }
    }
  }
}
