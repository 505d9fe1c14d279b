/** The inode layer of the file system (fs.c), one operation at a time. */
module Fs {
  import opened Common
  import opened DiskFormat
  import opened Ownership
  import opened FileData
  import opened Space

  predicate AllMarked(bitmap: seq<seq<bv8>>, size: nat) {
    BitmapFor(bitmap, size) && forall c :: 0 <= c < size ==> Marked(bitmap, c)
  }

  lemma CoreParts(l: Layout, bitmap: seq<seq<bv8>>, disk: seq<seq<Byte>>, inodes: seq<Inode>, slots: seq<Row>,
                  owner: Owner)
    requires Core(l, bitmap, disk, inodes, slots, owner)
    ensures LayoutOk(l) && BitmapFor(bitmap, l.size) && Blocks(l, disk) && Inverse(l, slots, owner)
    ensures |inodes| == |slots|
    ensures forall i :: 0 <= i < |inodes| ==> Reads(disk, inodes[i], slots[i])
  {}

  /** A block with a clear bit is neither metadata nor owned. */
  lemma FreeBlock(l: Layout, bitmap: seq<seq<bv8>>, owner: Owner, b: nat)
    requires Bits(l, bitmap, owner) && b < l.size && !Marked(bitmap, b)
    ensures l.nmeta <= b && b !in owner
  {}

  /** The bit that balloc looks at. */
  lemma BitAt(bitmap: seq<seq<bv8>>, size: nat, b: nat, bi: nat)
    requires BitmapFor(bitmap, size) && b % BPB == 0 && bi < BPB && b + bi < size
    ensures b / BPB < |bitmap| && |bitmap[b / BPB]| == BSIZE && (b + bi) / BPB == b / BPB
    ensures
      var bp, m := bitmap[b / BPB], Mask(bi % 8);
      && (Marked(bitmap, b + bi) <==> HasBit(bp[bi / 8], m))
      && SetBit(bitmap, b + bi) == bitmap[b / BPB := bp[bi / 8 := WithBit(bp[bi / 8], m)]]
  {
    hide Mask, HasBit, WithBit;
    assert (b + bi) / BPB == b / BPB && (b + bi) % BPB == bi;
  }

  /** The block a[bn] that bmap reads from the indirect block is the slot's address. */
  lemma WordRead(l: Layout, disk: seq<seq<Byte>>, inode: Inode, slots: seq<Row>, owner: Owner, i: nat, j: nat)
    requires Inverse(l, slots, owner) && Blocks(l, disk) && i < |slots| && Reads(disk, inode, slots[i]) && j < NINDIRECT
    requires inode.addrs[NDIRECT] != 0
    ensures inode.addrs[NDIRECT] < |disk| && Word(disk[inode.addrs[NDIRECT]], j) == slots[i][NDIRECT + 1 + j]
  {
    IndirectHeld(l, slots, owner, i);
    assert WordAt(disk, slots[i], j);
  }

  lemma AlreadyMapped(s: Snap, owner: Owner, i: nat, bn: nat)
    requires i < |s.slots| == |s.inodes| && |s.slots[i]| == NSLOT && bn < MAXFILE && s.slots[i][SlotOf(bn)] != 0
    requires bn >= NDIRECT ==> s.slots[i][NDIRECT] != 0
    ensures Mapped(s, s, owner, i, bn)
  {}

  lemma GaveDirect(l: Layout, s: Snap, t: Snap, owner: Owner, i: nat, k: nat, b: nat)
    requires Inverse(l, s.slots, owner) && i < |s.slots| == |s.inodes| && k < NDIRECT && s.slots[i][k] == 0
    requires 0 < b < |s.disk| && b !in owner
    requires t.slots == Put(s.slots, i, k, b) && t.disk == s.disk[b := ZeroBlock()]
    requires |t.inodes| == |s.inodes| && t.inodes[i].size == s.inodes[i].size
    requires forall j :: 0 <= j < |s.inodes| && j != i ==> t.inodes[j] == s.inodes[j]
    ensures Mapped(s, t, owner, i, k)
  {}

  /** Inode i has an indirect block, new or not; nothing else happened to any file. */
  predicate Indirected(s: Snap, t: Snap, owner: Owner, owner': Owner, i: nat) {
    && i < |s.slots| == |t.slots| == |s.inodes| == |t.inodes|
    && |s.slots[i]| == |t.slots[i]| == NSLOT
    && (if s.slots[i][NDIRECT] != 0 then t == s && owner' == owner
        else
          && (forall j :: 0 <= j < |s.slots| && j != i ==> t.slots[j] == s.slots[j] && t.inodes[j] == s.inodes[j])
          && t.inodes[i].size == s.inodes[i].size
          && t.slots[i] == s.slots[i][NDIRECT := t.slots[i][NDIRECT]]
          && t.slots[i][NDIRECT] != 0 && t.slots[i][NDIRECT] !in owner
          && owner' == owner[t.slots[i][NDIRECT] := Slot(i, NDIRECT)]
          && Kept(s.disk, t.disk, owner))
  }

  lemma GaveIndirect(l: Layout, s: Snap, t: Snap, owner: Owner, i: nat, b: nat)
    requires Inverse(l, s.slots, owner) && i < |s.slots| == |s.inodes| && s.slots[i][NDIRECT] == 0
    requires 0 < b < |s.disk| && b !in owner
    requires t.slots == Put(s.slots, i, NDIRECT, b) && t.disk == s.disk[b := ZeroBlock()]
    requires |t.inodes| == |s.inodes| && t.inodes[i].size == s.inodes[i].size
    requires forall j :: 0 <= j < |s.inodes| && j != i ==> t.inodes[j] == s.inodes[j]
    ensures Indirected(s, t, owner, owner[b := Slot(i, NDIRECT)], i)
  {}

  lemma GaveWord(l: Layout, s: Snap, t: Snap, owner: Owner, i: nat, j: nat, b: nat)
    requires Inverse(l, s.slots, owner) && i < |s.slots| == |s.inodes| && j < NINDIRECT
    requires s.slots[i][NDIRECT + 1 + j] == 0 && s.slots[i][NDIRECT] != 0
    requires 0 < b < |s.disk| && b !in owner
    requires t.slots == Put(s.slots, i, NDIRECT + 1 + j, b) && t.inodes == s.inodes
    requires |t.disk| == |s.disk| && forall a :: 0 <= a < |s.disk| && a != b && a != s.slots[i][NDIRECT] ==>
      t.disk[a] == s.disk[a]
    ensures Mapped(s, t, owner, i, NDIRECT + j)
  {
    IndirectHeld(l, s.slots, owner, i);
  }

  lemma InodeAddr(l: Layout, bitmap: seq<seq<bv8>>, disk: seq<seq<Byte>>, inodes: seq<Inode>, slots: seq<Row>,
                  owner: Owner, i: nat)
    requires Core(l, bitmap, disk, inodes, slots, owner) && i < |inodes|
    ensures |slots| == |inodes| && |inodes[i].addrs| == NDIRECT + 1 && |slots[i]| == NSLOT
    ensures slots[i][NDIRECT] == inodes[i].addrs[NDIRECT]
  {
    CoreParts(l, bitmap, disk, inodes, slots, owner);
  }

  lemma NoIndirect(l: Layout, bitmap: seq<seq<bv8>>, disk: seq<seq<Byte>>, inodes: seq<Inode>, slots: seq<Row>,
                   owner: Owner, i: nat, bn: nat)
    requires Core(l, bitmap, disk, inodes, slots, owner) && i < |inodes| && NDIRECT <= bn < MAXFILE
    ensures |slots| == |inodes| && |slots[i]| == NSLOT && (slots[i][NDIRECT] == 0 ==> slots[i][SlotOf(bn)] == 0)
  {
    CoreParts(l, bitmap, disk, inodes, slots, owner);
    assert WordAt(disk, slots[i], bn - NDIRECT);
  }

  lemma RowsIn(l: Layout, bitmap: seq<seq<bv8>>, disk: seq<seq<Byte>>, inodes: seq<Inode>, slots: seq<Row>,
               owner: Owner)
    requires Core(l, bitmap, disk, inodes, slots, owner)
    ensures Rows(slots) && |slots| == |inodes|
  {}

  lemma StuckHere(slots: seq<Row>, i: nat, bn: nat)
    requires Rows(slots) && i < |slots| && bn < MAXFILE && slots[i][SlotOf(bn)] == 0
    ensures Stuck(slots, slots, i, bn)
  {}

  lemma StuckAfter(s: Snap, t: Snap, owner: Owner, owner': Owner, i: nat, bn: nat)
    requires Rows(s.slots) && Indirected(s, t, owner, owner', i) && NDIRECT <= bn < MAXFILE
    requires t.slots[i][SlotOf(bn)] == 0
    ensures Stuck(s.slots, t.slots, i, bn)
  {}

  /** Finding the indirect block and then the address in it maps the block. */
  lemma IndirectThenWord(s: Snap, t: Snap, u: Snap, owner: Owner, owner': Owner, i: nat, bn: nat)
    requires Indirected(s, t, owner, owner', i) && Mapped(t, u, owner', i, bn) && NDIRECT <= bn < MAXFILE
    requires s.slots[i][NDIRECT] == 0 ==> s.slots[i][SlotOf(bn)] == 0
    ensures Mapped(s, u, owner, i, bn)
    ensures BmapLog(s.slots[i], u.slots[i], bn)
         == NewIndirectLog(s.slots, i, t.slots[i][NDIRECT]) + BmapLog(t.slots[i], u.slots[i], bn)
  {}

  /** Before a turn of writei's loop: src[..tot] is written. s0 is the state at the call. */
  predicate Turn(l: Layout, s0: Snap, logged0: set<LogBlock>, bitmap: seq<seq<bv8>>, s: Snap, owner: Owner,
                 logged: set<LogBlock>, i: nat, off: nat, src: seq<Byte>, tot: nat) {
    && tot <= |src| && off + |src| <= MAXBYTES && i < |s0.slots| == |s.slots| == |s.inodes|
    && (0 < tot < |src| ==> (off + tot) % BSIZE == 0)
    && Core(l, bitmap, s.disk, s.inodes, s.slots, owner)
    && Progress(s0, s, i, off, src[..tot])
    && Logging(s0.slots[i], s.slots[i], off / BSIZE, TouchedEnd(off, tot), logged0, logged)
    && Grown(s0.slots, s.slots, i, off, |src|)
  }

  /** The block that holds byte o of inode i. */
  function At(t: Snap, i: nat, o: nat): nat {
    if i < |t.slots| && |t.slots[i]| == NSLOT && o / BSIZE < MAXFILE then t.slots[i][SlotOf(o / BSIZE)] else 0
  }

  /** t with piece stored at byte o of inode i. */
  function After(t: Snap, i: nat, o: nat, piece: seq<Byte>): Snap {
    if CanStore(t, i, o, piece) then Stored(t, i, o, piece) else t
  }

  lemma OnePiece(src: seq<Byte>, off: nat, tot: nat)
    requires tot < |src|
    ensures PieceOf(src, off, tot) == src[tot..tot + Min(|src| - tot, BSIZE - (off + tot) % BSIZE)]
  {}

  lemma AfterStore(t: Snap, i: nat, o: nat, piece: seq<Byte>)
    requires CanStore(t, i, o, piece)
    ensures o / BSIZE < MAXFILE && i < |t.slots| && |t.slots[i]| == NSLOT
    ensures At(t, i, o) == t.slots[i][SlotOf(o / BSIZE)]
    ensures At(t, i, o) < |t.disk| && IsBlock(t.disk[At(t, i, o)]) && o % BSIZE + |piece| <= BSIZE
    ensures After(t, i, o, piece) == t.(disk := t.disk[At(t, i, o) := Splice(t.disk[At(t, i, o)], o % BSIZE, piece)])
  {}

  /** What bmap logs between s and t. */
  function LogOf(s: Snap, t: Snap, i: nat, bn: nat): set<LogBlock> {
    if i < |s.slots| && i < |t.slots| && |s.slots[i]| == |t.slots[i]| == NSLOT && bn < MAXFILE
    then BmapLog(s.slots[i], t.slots[i], bn) else {}
  }

  /** The piece of src that goes into one block. */
  function PieceOf(src: seq<Byte>, off: nat, tot: nat): seq<Byte> {
    if tot <= |src| then src[tot..tot + Min(|src| - tot, BSIZE - (off + tot) % BSIZE)] else []
  }

  lemma TurnStores(l: Layout, s0: Snap, logged0: set<LogBlock>, bitmap: seq<seq<bv8>>, s: Snap, owner: Owner,
                   logged: set<LogBlock>,
                   bitmap': seq<seq<bv8>>, t: Snap, owner': Owner, i: nat, off: nat, src: seq<Byte>, tot: nat,
                   piece: seq<Byte>)
    requires Turn(l, s0, logged0, bitmap, s, owner, logged, i, off, src, tot) && tot < |src|
    requires piece == PieceOf(src, off, tot)
    requires Mapped(s, t, owner, i, (off + tot) / BSIZE) && Core(l, bitmap', t.disk, t.inodes, t.slots, owner')
    ensures CanStore(t, i, off + tot, piece)
    ensures Core(l, bitmap', After(t, i, off + tot, piece).disk, t.inodes, t.slots, owner')
    ensures Progress(s0, After(t, i, off + tot, piece), i, off, src[..tot] + piece)
  {
    hide Core, Progress, Mapped, Logging, HoleFree, Splice, Blocks, Inverse, Extends, TouchedEnd, Reads;
    CoreParts(l, bitmap, s.disk, s.inodes, s.slots, owner);
    CoreParts(l, bitmap', t.disk, t.inodes, t.slots, owner');
    ProgressStep(l, s0, s, owner, t, owner', i, off, src[..tot], piece);
    MappedRow(s, t, owner, i, (off + tot) / BSIZE);
    SameSlot(s.slots[i], t.slots[i], (off + tot) / BSIZE);
    StoreKeeps(l, bitmap', t, owner', i, off + tot, piece);
  }

  lemma TurnLogs(l: Layout, s0: Snap, logged0: set<LogBlock>, bitmap: seq<seq<bv8>>, s: Snap, owner: Owner,
                 logged: set<LogBlock>, t: Snap, i: nat, off: nat, src: seq<Byte>, tot: nat, m: nat)
    requires Turn(l, s0, logged0, bitmap, s, owner, logged, i, off, src, tot) && tot < |src|
    requires m == |PieceOf(src, off, tot)|
    requires Mapped(s, t, owner, i, (off + tot) / BSIZE)
    ensures 0 < m && tot + m <= |src| && (tot + m < |src| ==> (off + tot + m) % BSIZE == 0)
    ensures i < |t.slots|
    ensures Logging(s0.slots[i], t.slots[i], off / BSIZE, TouchedEnd(off, tot + m), logged0,
                    logged + LogOf(s, t, i, (off + tot) / BSIZE) + {DataBlock(At(t, i, off + tot))})
  {
    hide Core, Progress, Mapped, Logging, HoleFree, BmapLog, TouchedEnd;
    InProgress(s0, s, i, off, src[..tot]);
    var size, o := s0.inodes[i].size, off + tot;
    Piece(off, tot, |src|, m);
    MappedRow(s, t, owner, i, o / BSIZE);
    LoggingStep(s0.slots[i], size, s.slots[i], t.slots[i], off / BSIZE, o / BSIZE, Max(size, o), logged0, logged);
  }

  /** One turn of writei's loop: bmap leads from s to t, then the piece is stored. */
  lemma TurnStep(l: Layout, s0: Snap, logged0: set<LogBlock>, bitmap: seq<seq<bv8>>, s: Snap, owner: Owner,
                 logged: set<LogBlock>,
                 bitmap': seq<seq<bv8>>, t: Snap, owner': Owner, logged': set<LogBlock>, i: nat, off: nat,
                 src: seq<Byte>, tot: nat, piece: seq<Byte>)
    requires Turn(l, s0, logged0, bitmap, s, owner, logged, i, off, src, tot) && tot < |src|
    requires piece == PieceOf(src, off, tot)
    requires Mapped(s, t, owner, i, (off + tot) / BSIZE) && Core(l, bitmap', t.disk, t.inodes, t.slots, owner')
    requires logged' == logged + LogOf(s, t, i, (off + tot) / BSIZE)
    ensures 0 < |piece| && CanStore(t, i, off + tot, piece)
    ensures Turn(l, s0, logged0, bitmap', After(t, i, off + tot, piece), owner',
                 logged' + {DataBlock(At(t, i, off + tot))}, i, off, src, tot + |piece|)
  {
    hide Core, Progress, Mapped, Logging, LogOf, Splice, TouchedEnd, At, Grown, CanStore, IsBlock;
    TurnStores(l, s0, logged0, bitmap, s, owner, logged, bitmap', t, owner', i, off, src, tot, piece);
    TurnLogs(l, s0, logged0, bitmap, s, owner, logged, t, i, off, src, tot, |piece|);
    RowsIn(l, bitmap', t.disk, t.inodes, t.slots, owner');
    TurnWithin(off, |src|, tot);
    GrownMapped(s0.slots, s, t, owner, i, off, |src|, (off + tot) / BSIZE);
    assert src[..tot] + piece == src[..tot + |piece|];
    InProgress(s0, After(t, i, off + tot, piece), i, off, src[..tot] + piece);
  }

  lemma TurnWithin(off: nat, n: nat, tot: nat)
    requires tot < n
    ensures off / BSIZE <= (off + tot) / BSIZE < TouchedEnd(off, n)
  {}

  lemma TurnStart(l: Layout, bitmap: seq<seq<bv8>>, s: Snap, owner: Owner, logged: set<LogBlock>, i: nat, off: nat,
                  src: seq<Byte>)
    requires Core(l, bitmap, s.disk, s.inodes, s.slots, owner) && i < |s.inodes| && off + |src| <= MAXBYTES
    requires off <= s.inodes[i].size && FilesOk(s)
    ensures Turn(l, s, logged, bitmap, s, owner, logged, i, off, src, 0)
  {
    hide HoleFree, Logging, Progress, TouchedEnd;
    assert FileOk(s, i);
    ProgressStart(s, i, off);
    LoggingStart(s.slots[i], s.inodes[i].size, off, logged);
    GrownStart(s.slots, i, off, |src|);
    assert src[..0] == [];
  }

  lemma TurnParts(l: Layout, s0: Snap, logged0: set<LogBlock>, bitmap: seq<seq<bv8>>, s: Snap, owner: Owner,
                  logged: set<LogBlock>, i: nat, off: nat, src: seq<Byte>, tot: nat)
    requires Turn(l, s0, logged0, bitmap, s, owner, logged, i, off, src, tot)
    ensures i < |s0.slots| == |s.slots| == |s.inodes| && tot <= |src|
    ensures Core(l, bitmap, s.disk, s.inodes, s.slots, owner)
    ensures Progress(s0, s, i, off, src[..tot]) && (tot < |src| ==> (off + tot) / BSIZE < MAXFILE)
    ensures Logging(s0.slots[i], s.slots[i], off / BSIZE, TouchedEnd(off, tot), logged0, logged)
    ensures |s.slots[i]| == NSLOT && Grown(s0.slots, s.slots, i, off, |src|)
  {}

  function NewIndirectLog(slots: seq<Row>, i: nat, b: nat): set<LogBlock> {
    if i < |slots| && |slots[i]| == NSLOT && slots[i][NDIRECT] != 0 then {} else {DataBlock(b), BitmapBlock(b / BPB)}
  }

  /** Block bn of inode i already has an address. */
  predicate Had(s: Snap, i: nat, bn: nat) {
    i < |s.slots| && |s.slots[i]| == NSLOT && bn < MAXFILE && s.slots[i][SlotOf(bn)] != 0
  }

  predicate FilesOk(s: Snap) {
    |s.inodes| == |s.slots| && forall j :: 0 <= j < |s.inodes| ==> FileOk(s, j)
  }

  /** What the user sees: the bytes of every file. */
  function FilesOf(s: Snap): seq<seq<Byte>>
    requires FilesOk(s)
  {
    seq(|s.inodes|, j requires 0 <= j < |s.inodes| => FileOf(s, j))
  }

  function FileOf(s: Snap, j: nat): seq<Byte>
    requires FileOk(s, j)
  {
    Content(s.disk, s.slots[j], s.inodes[j].size)
  }

  function Resized(s: Snap, i: nat, size: nat): Snap
    requires i < |s.inodes|
  {
    s.(inodes := s.inodes[i := s.inodes[i].(size := size)])
  }

  lemma ResizeCore(l: Layout, bitmap: seq<seq<bv8>>, s: Snap, owner: Owner, i: nat, size: nat)
    requires Core(l, bitmap, s.disk, s.inodes, s.slots, owner) && i < |s.inodes|
    ensures Core(l, bitmap, s.disk, Resized(s, i, size).inodes, s.slots, owner)
  {
    forall j | 0 <= j < |s.inodes|
      ensures Reads(s.disk, Resized(s, i, size).inodes[j], s.slots[j])
    {
      assert Reads(s.disk, s.inodes[j], s.slots[j]);
    }
  }

  /** The end of writei: the size is set if the file has grown, and then all files are as the
      user expects. If it has not grown, no inode has changed. */
  lemma WriteEnds(s0: Snap, s: Snap, i: nat, off: nat, src: seq<Byte>)
    requires Progress(s0, s, i, off, src) && FilesOk(s0)
    ensures i < |s.slots| == |s.inodes| == |s0.inodes| && off <= s0.inodes[i].size == s.inodes[i].size
    ensures
      var t := Resized(s, i, Max(s.inodes[i].size, off + |src|));
      && FilesOk(t) && FilesOf(t) == FilesOf(s0)[i := Overwrite(FileOf(s0, i), off, src)]
      && (off + |src| <= s.inodes[i].size ==> t == s && s.inodes == s0.inodes)
      && (forall j :: 0 <= j < |s.inodes| && j != i ==> s.inodes[j] == s0.inodes[j])
  {
    hide HoleFree, Content, Overwrite;
    var t := Resized(s, i, Max(s.inodes[i].size, off + |src|));
    forall j | 0 <= j < |t.inodes|
      ensures FileOk(t, j) && FileOf(t, j) == if j == i then Overwrite(FileOf(s0, i), off, src) else FileOf(s0, j)
      ensures j != i ==> s.inodes[j] == s0.inodes[j]
    {
      if j != i {
        assert SameFile(s0, s, j);
      }
    }
  }

  lemma FilesAt(s: Snap, i: nat)
    requires FilesOk(s) && i < |s.inodes|
    ensures |FilesOf(s)| == |s.inodes| && FileOk(s, i) && FilesOf(s)[i] == FileOf(s, i)
    ensures |FileOf(s, i)| == s.inodes[i].size
  {}

  lemma LoggedAll(row0: Row, row: Row, off: nat, n: nat, logged0: set<LogBlock>, logged: set<LogBlock>)
    requires Logging(row0, row, off / BSIZE, TouchedEnd(off, n), logged0, logged)
    ensures |row0| == |row| == NSLOT && TouchedEnd(off, n) <= MAXFILE
    ensures logged == logged0 + WriteLog(row0, row, off / BSIZE, TouchedEnd(off, n))
  {}

  /** Every byte of a file has its block. */
  lemma BlockHad(s: Snap, i: nat, o: nat)
    requires FileOk(s, i) && o < s.inodes[i].size
    ensures Had(s, i, o / BSIZE)
  {
    Exists(s.slots[i], s.inodes[i].size, o);
  }

  /** Bytes of one block of the file. */
  lemma ReadPiece(l: Layout, bitmap: seq<seq<bv8>>, s: Snap, owner: Owner, i: nat, o: nat, m: nat)
    requires Core(l, bitmap, s.disk, s.inodes, s.slots, owner) && i < |s.inodes| && FileOk(s, i)
    requires o < s.inodes[i].size && o + m <= s.inodes[i].size && o % BSIZE + m <= BSIZE
    ensures
      var a := At(s, i, o);
      a < |s.disk| && |s.disk[a]| == BSIZE && s.disk[a][o % BSIZE..o % BSIZE + m] == FileOf(s, i)[o..o + m]
  {
    hide HoleFree, Core, Inverse, Reads, Content;
    BlockHad(s, i, o);
    CoreParts(l, bitmap, s.disk, s.inodes, s.slots, owner);
    DataHeld(l, s.slots, owner, i, o / BSIZE);
    PieceRead(s.disk, s.slots[i], s.inodes[i].size, o, m);
  }

  // ----- truncation

  function Emptied(s: Snap, i: nat, slots: seq<Row>): Snap
    requires i < |s.inodes|
  {
    Snap(s.disk, s.inodes[i := EmptyInode()], slots)
  }

  /** All of inode i's slots freed: its file is empty, all others are as before. */
  lemma TruncEnds(l: Layout, s: Snap, bitmap0: seq<seq<bv8>>, owner0: Owner, bitmap: seq<seq<bv8>>, slots: seq<Row>,
                  owner: Owner, i: nat)
    requires Core(l, bitmap0, s.disk, s.inodes, s.slots, owner0) && FilesOk(s) && i < |s.inodes|
    requires Cutting(l, bitmap, s.slots, slots, owner, i, NSLOT)
    ensures Core(l, bitmap, s.disk, Emptied(s, i, slots).inodes, slots, owner)
    ensures FilesOk(Emptied(s, i, slots)) && FilesOf(Emptied(s, i, slots)) == FilesOf(s)[i := []]
  {
    CoreParts(l, bitmap0, s.disk, s.inodes, s.slots, owner0);
    var t := Emptied(s, i, slots);
    TruncReads(l, s, bitmap, slots, owner, i);
    hide Inverse, Bits, Reads, Content;
    forall j | 0 <= j < |t.inodes|
      ensures FileOk(t, j) && FileOf(t, j) == if j == i then [] else FileOf(s, j)
    {
      assert FileOk(s, j);
      if j == i {
        assert FileOf(t, i) == [];
      }
    }
  }

  lemma TruncReads(l: Layout, s: Snap, bitmap: seq<seq<bv8>>, slots: seq<Row>, owner: Owner, i: nat)
    requires i < |s.inodes| == |s.slots| && (forall j :: 0 <= j < |s.inodes| ==> Reads(s.disk, s.inodes[j], s.slots[j]))
    requires Cutting(l, bitmap, s.slots, slots, owner, i, NSLOT)
    ensures AllRead(s.disk, Emptied(s, i, slots).inodes, slots)
  {
    CutBitmap(l, bitmap, s.slots, slots, owner, i, NSLOT);
    hide Inverse, Bits;
    var t := Emptied(s, i, slots);
    forall j | 0 <= j < |t.inodes|
      ensures Reads(t.disk, t.inodes[j], t.slots[j])
    {
      assert Reads(s.disk, s.inodes[j], s.slots[j]);
      if j == i {
        ZeroReads(t.disk, t.inodes[i], t.slots[i]);
      }
    }
  }

  lemma ZeroReads(disk: seq<seq<Byte>>, inode: Inode, row: Row)
    requires |inode.addrs| == NDIRECT + 1 && |row| == NSLOT
    requires forall k :: 0 <= k <= NDIRECT ==> inode.addrs[k] == 0
    requires forall k :: 0 <= k < NSLOT ==> row[k] == 0
    ensures Reads(disk, inode, row)
  {
    forall j | 0 <= j < NINDIRECT
      ensures WordAt(disk, row, j)
    {}
  }

  lemma CutStart(l: Layout, bitmap: seq<seq<bv8>>, disk: seq<seq<Byte>>, inodes: seq<Inode>, slots: seq<Row>,
                 owner: Owner, i: nat)
    requires Core(l, bitmap, disk, inodes, slots, owner) && i < |inodes|
    ensures Cutting(l, bitmap, slots, slots, owner, i, 0)
  {}

  lemma CutBitmap(l: Layout, bitmap: seq<seq<bv8>>, slots0: seq<Row>, slots: seq<Row>, owner: Owner, i: nat, p: nat)
    requires Cutting(l, bitmap, slots0, slots, owner, i, p)
    ensures BitmapFor(bitmap, l.size) && |slots| == |slots0| && Rows(slots)
  {}

  lemma IndirectCut(l: Layout, bitmap0: seq<seq<bv8>>, s: Snap, owner0: Owner, bitmap: seq<seq<bv8>>, slots: seq<Row>,
                    owner: Owner, i: nat)
    requires Core(l, bitmap0, s.disk, s.inodes, s.slots, owner0) && i < |s.inodes|
    requires Cutting(l, bitmap, s.slots, slots, owner, i, NDIRECT)
    ensures
      var ind := s.inodes[i].addrs[NDIRECT];
      && ind == s.slots[i][NDIRECT]
      && (ind != 0 ==> ind < |s.disk| && IsBlock(s.disk[ind]))
      && (ind == 0 ==> Cutting(l, bitmap, s.slots, slots, owner, i, NSLOT))
    ensures forall j :: 0 <= j < NINDIRECT ==> WordAt(s.disk, s.slots[i], j)
  {
    CoreParts(l, bitmap0, s.disk, s.inodes, s.slots, owner0);
    IndirectHeld(l, s.slots, owner0, i);
    if s.slots[i][NDIRECT] == 0 {
      forall k | 0 <= k < NSLOT
        ensures slots[i][k] == 0
      {
        if k > NDIRECT {
          assert WordAt(s.disk, s.slots[i], k - NDIRECT - 1);
        }
      }
    }
  }

  /** The bitmap after truncation. */
  lemma TruncBits(l: Layout, bitmap0: seq<seq<bv8>>, slots0: seq<Row>, owner0: Owner, bitmap: seq<seq<bv8>>,
                  slots: seq<Row>, owner: Owner, i: nat, b: nat)
    requires LayoutOk(l) && Bits(l, bitmap0, owner0) && Inverse(l, slots0, owner0)
    requires Cutting(l, bitmap, slots0, slots, owner, i, NSLOT)
    requires b < l.size
    ensures Marked(bitmap, b) <==> Marked(bitmap0, b) && !(b in owner0 && owner0[b].inum == i)
  {
    CutOwner(l, slots0, owner0, bitmap, slots, owner, i, b);
    if b in owner0 {
      assert Held(l, slots0, b, owner0[b]);
    }
  }

  lemma TruncAllBits(l: Layout, bitmap0: seq<seq<bv8>>, disk: seq<seq<Byte>>, inodes: seq<Inode>, slots0: seq<Row>,
                     owner0: Owner, bitmap: seq<seq<bv8>>, slots: seq<Row>, owner: Owner, i: nat)
    requires Core(l, bitmap0, disk, inodes, slots0, owner0) && Cutting(l, bitmap, slots0, slots, owner, i, NSLOT)
    ensures BitmapFor(bitmap0, l.size) && BitmapFor(bitmap, l.size)
    ensures forall b :: 0 <= b < l.size ==>
      (Marked(bitmap, b) <==> Marked(bitmap0, b) && !(b in owner0 && owner0[b].inum == i))
  {
    CoreParts(l, bitmap0, disk, inodes, slots0, owner0);
    CutBitmap(l, bitmap, slots0, slots, owner, i, NSLOT);
    forall b | 0 <= b < l.size
      ensures Marked(bitmap, b) <==> Marked(bitmap0, b) && !(b in owner0 && owner0[b].inum == i)
    {
      hide Cutting, Inverse, Bits, Marked;
      TruncBits(l, bitmap0, slots0, owner0, bitmap, slots, owner, i, b);
    }
  }

  // ----- running out of blocks

  /** A slot that the write must fill and that is still empty. */
  predicate EmptySlot(slots0: seq<Row>, slots: seq<Row>, i: nat, off: nat, n: nat) {
    i < |slots0| == |slots| && |slots[i]| == NSLOT &&
    exists k :: 0 <= k < NSLOT && k in Missing(slots0[i], off, n) && slots[i][k] == 0
  }

  /** The blocks that a write of n bytes at off allocates, in a file of the given size. */
  function Needed(size: nat, off: nat, n: nat): int {
    BlocksFor(Max(size, off + n)) - BlocksFor(size)
  }

  lemma GrowsNot(l: Layout, bitmap: seq<seq<bv8>>, s: Snap, owner: Owner, i: nat, off: nat, n: nat)
    requires Core(l, bitmap, s.disk, s.inodes, s.slots, owner) && i < |s.inodes|
    ensures Grown(s.slots, s.slots, i, off, n)
  {}

  lemma RanOut(l: Layout, bitmap0: seq<seq<bv8>>, s0: Snap, owner0: Owner, bitmap: seq<seq<bv8>>, s: Snap, owner: Owner,
               i: nat, off: nat, n: nat)
    requires Core(l, bitmap0, s0.disk, s0.inodes, s0.slots, owner0) && Core(l, bitmap, s.disk, s.inodes, s.slots, owner)
    requires Grown(s0.slots, s.slots, i, off, n) && EmptySlot(s0.slots, s.slots, i, off, n) && AllMarked(bitmap, l.size)
    ensures |FreeBlocks(bitmap0, l.size)| < |Missing(s0.slots[i], off, n)|
  {
    hide Grown, Missing, FreeBlocks, Inverse, Bits, AllRead;
    var k :| 0 <= k < NSLOT && k in Missing(s0.slots[i], off, n) && s.slots[i][k] == 0;
    TooFewBlocks(l, bitmap0, s0.slots, owner0, bitmap, s.slots, owner, i, off, n, k);
  }

  lemma HadEnough(l: Layout, bitmap0: seq<seq<bv8>>, s0: Snap, owner0: Owner, bitmap: seq<seq<bv8>>, s: Snap,
                  owner: Owner, i: nat, off: nat, src: seq<Byte>)
    requires Core(l, bitmap0, s0.disk, s0.inodes, s0.slots, owner0) && Core(l, bitmap, s.disk, s.inodes, s.slots, owner)
    requires Grown(s0.slots, s.slots, i, off, |src|) && Progress(s0, s, i, off, src)
    ensures i < |s0.slots| && |Missing(s0.slots[i], off, |src|)| <= |FreeBlocks(bitmap0, l.size)|
  {
    hide Grown, FreeBlocks, Inverse, Bits, AllRead, Content, Overwrite;
    GrownRow(s0.slots, s.slots, i, off, |src|);
    InProgress(s0, s, i, off, src);
    forall k | k in Missing(s0.slots[i], off, |src|)
      ensures s.slots[i][k] != 0
    {
      FilledIn(s.slots[i], Max(s0.inodes[i].size, off + |src|), off, |src|, k);
    }
    EnoughBlocks(l, bitmap0, s0.slots, owner0, s.slots, owner, i, off, |src|);
  }

  lemma FilledIn(row: Row, top: nat, off: nat, n: nat, k: nat)
    requires HoleFree(row, top) && Covers(k, off, n) && off + n <= top && off + n <= MAXBYTES && k < NSLOT
    ensures row[k] != 0
  {
    var bn := if k < NDIRECT then k else k - 1;
    assert k != NDIRECT ==> SlotOf(bn) == k && bn < MAXFILE;
  }

  /** The arguments that writei refuses. */
  predicate WriteRefused(size: nat, off: nat, n: nat) {
    off > size || (off + n) % UINT < off || off + n > MAXBYTES
  }

  predicate ReadRefused(size: nat, off: nat, n: nat) {
    off > size || (off + n) % UINT < off
  }

  /** The blocks that writei logs, from the rows of inode i before and after. */
  function WriteiLog(s0: Snap, s: Snap, i: nat, off: nat, n: nat): set<LogBlock> {
    if
      && i < |s0.slots| && i < |s.slots| && i < |s0.inodes| && |s0.slots[i]| == |s.slots[i]| == NSLOT
      && TouchedEnd(off, n) <= MAXFILE
    then
      WriteLog(s0.slots[i], s.slots[i], off / BSIZE, TouchedEnd(off, n)) +
      if n > 0 && off + n > s0.inodes[i].size then {InodeBlock(i / IPB)} else {}
    else {}
  }

  // ----- the specification: every file a byte sequence

  datatype Op = Write(i: nat, src: seq<Byte>, off: nat) | Read(i: nat, off: nat, len: nat) | Trunc(i: nat)

  datatype Result = Count(n: int) | Bytes(data: seq<Byte>)

  /** The arguments are unsigned ints. */
  predicate OpOk(op: Op, n: nat) {
    op.i < n && (op.Write? ==> op.off < UINT && |op.src| < UINT) && (op.Read? ==> op.off < UINT && op.len < UINT)
  }

  function FlatStep(files: seq<seq<Byte>>, op: Op): (seq<seq<Byte>>, Result) {
    if op.i >= |files| then (files, Count(-1))
    else
      var c := files[op.i];
      match op
      case Write(i, src, off) =>
        if WriteRefused(|c|, off, |src|) then (files, Count(-1)) else (files[i := Overwrite(c, off, src)], Count(|src|))
      case Read(i, off, len) =>
        if ReadRefused(|c|, off, len) then (files, Count(-1)) else (files, Bytes(c[off..off + Min(len, |c| - off)]))
      case Trunc(i) => (files[i := []], Count(0))
  }

  function FlatRun(files: seq<seq<Byte>>, ops: seq<Op>): (seq<seq<Byte>>, seq<Result>)
    decreases |ops|
  {
    if ops == [] then (files, [])
    else
      var (before, rs) := FlatRun(files, ops[..|ops|-1]);
      var (after, r) := FlatStep(before, ops[|ops|-1]);
      (after, rs + [r])
  }

  lemma RunSnoc(files: seq<seq<Byte>>, ops: seq<Op>, k: nat)
    requires k < |ops|
    ensures
      var (before, rs) := FlatRun(files, ops[..k]);
      var (after, r) := FlatStep(before, ops[k]);
      FlatRun(files, ops[..k + 1]) == (after, rs + [r])
  {
    assert ops[..k + 1][..k] == ops[..k];
  }

  // ----- what a run shows, from its operations alone

  /** The size of file i: writes extend it, truncation empties it. */
  function SizeAfter(files: seq<seq<Byte>>, ops: seq<Op>, i: nat): nat
    requires i < |files|
    decreases |ops|
  {
    if ops == [] then |files[i]|
    else
      var size, op := SizeAfter(files, ops[..|ops|-1], i), ops[|ops|-1];
      if op.i != i then size
      else match op
        case Write(_, src, off) => if WriteRefused(size, off, |src|) then size else Max(size, off + |src|)
        case Read(_, _, _) => size
        case Trunc(_) => 0
  }

  /** Byte o of file i: the last one written there, else what was there at the start. */
  function ByteAfter(files: seq<seq<Byte>>, ops: seq<Op>, i: nat, o: nat): Byte
    requires i < |files|
    decreases |ops|
  {
    if ops == [] then if o < |files[i]| then files[i][o] else 0
    else
      var before, op := ops[..|ops|-1], ops[|ops|-1];
      if op.Write? && op.i == i && !WriteRefused(SizeAfter(files, before, i), op.off, |op.src|)
         && op.off <= o < op.off + |op.src|
      then op.src[o - op.off] else ByteAfter(files, before, i, o)
  }

  function BytesAfter(files: seq<seq<Byte>>, ops: seq<Op>, i: nat, off: nat, n: nat): (r: seq<Byte>)
    requires i < |files|
    ensures |r| == n && forall j :: 0 <= j < n ==> r[j] == ByteAfter(files, ops, i, off + j)
    decreases n
  {
    if n == 0 then [] else BytesAfter(files, ops, i, off, n - 1) + [ByteAfter(files, ops, i, off + n - 1)]
  }

  /** What an operation returns after others. */
  function Answer(files: seq<seq<Byte>>, before: seq<Op>, op: Op): Result {
    if op.i >= |files| then Count(-1)
    else
      var size := SizeAfter(files, before, op.i);
      match op
      case Write(_, src, off) => Count(if WriteRefused(size, off, |src|) then -1 else |src|)
      case Read(i, off, len) =>
        if ReadRefused(size, off, len) then Count(-1)
        else Bytes(BytesAfter(files, before, i, off, Min(len, size - off)))
      case Trunc(_) => Count(0)
  }

  lemma {:induction false} FlatMeaning(files: seq<seq<Byte>>, ops: seq<Op>, i: nat)
    requires i < |files|
    ensures
      var now := FlatRun(files, ops).0;
      && |now| == |files| && |now[i]| == SizeAfter(files, ops, i)
      && (forall o :: 0 <= o < |now[i]| ==> now[i][o] == ByteAfter(files, ops, i, o))
    decreases |ops|
  {
    if ops != [] {
      var before, op := ops[..|ops|-1], ops[|ops|-1];
      FlatMeaning(files, before, i);
      var was := FlatRun(files, before).0;
      if op.Write? && op.i == i && !WriteRefused(|was[i]|, op.off, |op.src|) {
        forall o | 0 <= o < Max(|was[i]|, op.off + |op.src|)
          ensures Overwrite(was[i], op.off, op.src)[o] == ByteAfter(files, ops, i, o)
        {
          OverwriteAt(was[i], op.off, op.src, o);
        }
      }
    }
  }

  lemma AnswerMeaning(files: seq<seq<Byte>>, ops: seq<Op>, op: Op)
    ensures FlatStep(FlatRun(files, ops).0, op).1 == Answer(files, ops, op)
  {
    hide FlatRun, Overwrite;
    FlatCount(files, ops);
    if op.i < |files| {
      FlatMeaning(files, ops, op.i);
      var c := FlatRun(files, ops).0[op.i];
      if op.Read? && !ReadRefused(|c|, op.off, op.len) {
        var n := Min(op.len, |c| - op.off);
        assert c[op.off..op.off + n] == BytesAfter(files, ops, op.i, op.off, n);
      }
    }
  }

  lemma {:induction false} FlatCount(files: seq<seq<Byte>>, ops: seq<Op>)
    ensures |FlatRun(files, ops).0| == |files|
    decreases |ops|
  {
    if ops != [] {
      FlatCount(files, ops[..|ops|-1]);
    }
  }

  // ----- how much fits

  function SizesOf(files: seq<seq<Byte>>): seq<nat> {
    seq(|files|, j requires 0 <= j < |files| => |files[j]|)
  }

  /** The files take no more blocks than the disk has for them. */
  predicate DiskHolds(files: seq<seq<Byte>>, l: Layout) {
    Total(SizesOf(files)) <= l.size - l.nmeta
  }

  /** Every state on the way fits. */
  predicate DiskHoldsRun(files: seq<seq<Byte>>, ops: seq<Op>, l: Layout)
    decreases |ops|
  {
    DiskHolds(FlatRun(files, ops).0, l) && (ops != [] ==> DiskHoldsRun(files, ops[..|ops|-1], l))
  }

  /** Free blocks are what the files leave. */
  lemma Capacity(l: Layout, bitmap: seq<seq<bv8>>, s: Snap, owner: Owner)
    requires Core(l, bitmap, s.disk, s.inodes, s.slots, owner) && FilesOk(s)
    ensures |FreeBlocks(bitmap, l.size)| == l.size - l.nmeta - Total(SizesOf(FilesOf(s)))
  {
    var sizes := SizesOf(FilesOf(s));
    CoreParts(l, bitmap, s.disk, s.inodes, s.slots, owner);
    hide Inverse, Bits, FreeBlocks, Reads, HoleFree, FilesOf, Content;
    FilesLen(s);
    forall j | 0 <= j < |s.inodes|
      ensures sizes[j] == s.inodes[j].size <= MAXBYTES && HoleFree(s.slots[j], sizes[j])
    {
      FilesAt(s, j);
    }
    BlocksConserved(l, bitmap, s.slots, owner, sizes);
  }

  /** A write fits exactly when the blocks it needs are free. */
  lemma WriteHolds(files: seq<seq<Byte>>, i: nat, src: seq<Byte>, off: nat, l: Layout)
    requires i < |files| && !WriteRefused(|files[i]|, off, |src|)
    ensures DiskHolds(FlatStep(files, Write(i, src, off)).0, l) <==>
      Needed(|files[i]|, off, |src|) <= l.size - l.nmeta - Total(SizesOf(files))
  {
    hide BlocksFor;
    var c := Overwrite(files[i], off, src);
    assert SizesOf(files[i := c]) == SizesOf(files)[i := |c|];
    TotalUpdate(SizesOf(files), i, |c|);
  }

  lemma HoldsNow(files: seq<seq<Byte>>, bitmap: seq<seq<bv8>>, l: Layout)
    requires |FreeBlocks(bitmap, l.size)| == l.size - l.nmeta - Total(SizesOf(files))
    ensures DiskHolds(files, l)
  {}

  lemma {:induction false} RunPrefix(files: seq<seq<Byte>>, ops: seq<Op>, k: nat, l: Layout)
    requires k <= |ops|
    ensures DiskHoldsRun(files, ops, l) ==> DiskHoldsRun(files, ops[..k], l)
    decreases |ops|
  {
    if k < |ops| {
      RunPrefix(files, ops[..|ops|-1], k, l);
      assert ops[..|ops|-1][..k] == ops[..k];
    } else {
      assert ops[..k] == ops;
    }
  }

  lemma TruncHolds(files: seq<seq<Byte>>, i: nat, l: Layout)
    requires i < |files| && DiskHolds(files, l)
    ensures DiskHolds(FlatStep(files, Trunc(i)).0, l)
  {
    assert SizesOf(files[i := []]) == SizesOf(files)[i := 0];
    TotalUpdate(SizesOf(files), i, 0);
  }

  lemma FilesLen(s: Snap)
    requires FilesOk(s)
    ensures |FilesOf(s)| == |s.inodes|
  {}

  // ----- the disk that mkfs makes

  function EmptyInode(): Inode {
    Inode(0, seq(NDIRECT + 1, _ => 0))
  }

  function EmptyRow(): Row {
    seq(NSLOT, _ => 0)
  }

  /** balloc of mkfs: a bitmap with the first `used` bits set. */
  method FirstMarked(size: nat, used: nat) returns (bitmap: seq<seq<bv8>>)
    requires used <= size
    ensures BitmapFor(bitmap, size) && forall c :: 0 <= c < size ==> (Marked(bitmap, c) <==> c < used)
  {
    hide Marked, SetBit;
    bitmap := seq(size / BPB + 1, _ => seq(BSIZE, _ => 0));
    forall c | 0 <= c < size
      ensures !Marked(bitmap, c)
    {
      NoneMarked(bitmap, size, c);
    }
    var b := 0;
    while b < used
      invariant 0 <= b <= used && BitmapFor(bitmap, size)
      invariant forall c :: 0 <= c < size ==> (Marked(bitmap, c) <==> c < b)
    {
      SetMarks(bitmap, size, b, b);
      forall c | 0 <= c < size
        ensures BitmapFor(SetBit(bitmap, b), size) && (Marked(SetBit(bitmap, b), c) <==> c == b || Marked(bitmap, c))
      {
        SetMarks(bitmap, size, b, c);
      }
      bitmap := SetBit(bitmap, b);
      b := b + 1;
    }
  }

  lemma NoneMarked(bitmap: seq<seq<bv8>>, size: nat, c: nat)
    requires BitmapFor(bitmap, size) && c < size
    requires forall k, y :: 0 <= k < |bitmap| && 0 <= y < BSIZE ==> bitmap[k][y] == 0
    ensures !Marked(bitmap, c)
  {
    assert ByteOf(bitmap, c) == 0;
  }

  lemma EmptyDisk(l: Layout, bitmap: seq<seq<bv8>>, s: Snap)
    requires LayoutOk(l) && BitmapFor(bitmap, l.size)
    requires forall c :: 0 <= c < l.size ==> (Marked(bitmap, c) <==> c < l.nmeta)
    requires |s.inodes| == |s.slots| && |s.disk| == l.size && (forall b :: 0 <= b < l.size ==> IsBlock(s.disk[b]))
    requires forall j :: 0 <= j < |s.inodes| ==> s.inodes[j] == EmptyInode() && s.slots[j] == EmptyRow()
    ensures Core(l, bitmap, s.disk, s.inodes, s.slots, map[]) && FilesOk(s)
    ensures forall j :: 0 <= j < |s.inodes| ==> FilesOf(s)[j] == []
  {
    hide Marked;
    forall j | 0 <= j < |s.inodes|
      ensures Reads(s.disk, s.inodes[j], s.slots[j]) && FileOk(s, j) && FileOf(s, j) == []
    {
      ZeroReads(s.disk, s.inodes[j], s.slots[j]);
    }
  }

  /** The file system: the bitmap blocks, the contents of all blocks, the inodes in memory and on
      disk. Ghost state: the inode slots and who owns which block, and the blocks that the
      current operation has logged. */
  class FileSystem {
    const l: Layout
    var bitmap: seq<seq<bv8>>
    var disk: seq<seq<Byte>>
    var inodes: seq<Inode>
    var dinodes: seq<Inode>
    ghost var slots: seq<Row>
    ghost var owner: Owner
    ghost var logged: set<LogBlock>
    ghost var ops: seq<set<LogBlock>> // what each finished operation logged

    /** The disk that mkfs makes, without its files: the metadata blocks are marked in use. */
    constructor (layout: Layout, ninodes: nat)
      requires LayoutOk(layout)
      ensures l == layout && Valid() && |inodes| == ninodes && logged == {}
      ensures forall j :: 0 <= j < ninodes ==> Files()[j] == []
    {
      var marks := FirstMarked(layout.size, layout.nmeta);
      l, bitmap := layout, marks;
      disk := seq(layout.size, _ => ZeroBlock());
      inodes := seq(ninodes, _ => EmptyInode());
      dinodes := seq(ninodes, _ => EmptyInode());
      slots := seq(ninodes, _ => EmptyRow());
      owner, logged, ops := map[], {}, [];
      new;
      EmptyDisk(l, bitmap, Now());
    }

    ghost predicate Consistent()
      reads `bitmap, `disk, `inodes, `slots, `owner
    {
      Core(l, bitmap, disk, inodes, slots, owner)
    }

    ghost function Now(): Snap
      reads `disk, `inodes, `slots
    {
      Snap(disk, inodes, slots)
    }

    /** Between operations every file is hole-free and the inodes on disk are up to date. */
    ghost predicate Valid()
      reads `bitmap, `disk, `inodes, `dinodes, `slots, `owner
    {
      Consistent() && dinodes == inodes && FilesOk(Now())
    }

    /** begin_op and end_op, as far as the count of logged blocks goes. */
    ghost method BeginOp()
      modifies `logged
      ensures logged == {}
    {
      logged := {};
    }

    ghost method EndOp()
      modifies `ops
      ensures ops == old(ops) + [logged]
    {
      ops := ops + [logged];
    }

    /** The bytes of every file. */
    ghost function Files(): seq<seq<Byte>>
      reads `disk, `inodes, `slots
      requires FilesOk(Now())
    {
      FilesOf(Now())
    }

    method Balloc() returns (r: Option<nat>)
      requires BitmapFor(bitmap, l.size) && |disk| == l.size
      modifies `bitmap, `disk, `logged
      ensures r.None? ==>
        bitmap == old(bitmap) && disk == old(disk) && logged == old(logged) && AllMarked(bitmap, l.size)
      ensures r.Some? ==>
        && r.value < l.size && BitmapFor(old(bitmap), l.size)
        && !Marked(old(bitmap), r.value) && (forall c :: 0 <= c < r.value ==> Marked(old(bitmap), c))
        && bitmap == SetBit(old(bitmap), r.value)
        && disk == old(disk)[r.value := ZeroBlock()]
        && logged == old(logged) + {DataBlock(r.value), BitmapBlock(r.value / BPB)}
    {
      hide Mask, HasBit, WithBit, Marked, SetBit, ZeroBlock;
      var b := 0;
      while b < l.size
        invariant b % BPB == 0 && bitmap == old(bitmap) && disk == old(disk) && logged == old(logged)
        invariant forall c :: 0 <= c < b && c < l.size ==> Marked(bitmap, c)
      {
        var bp := bitmap[b / BPB];
        var bi := 0;
        while bi < BPB && b + bi < l.size
          invariant 0 <= bi <= BPB && bitmap == old(bitmap) && disk == old(disk) && logged == old(logged)
          invariant forall c :: 0 <= c < b + bi && c < l.size ==> Marked(bitmap, c)
        {
          var m := Mask(bi % 8);
          BitAt(bitmap, l.size, b, bi);
          if !HasBit(bp[bi / 8], m) {
            bitmap := bitmap[b / BPB := bp[bi / 8 := WithBit(bp[bi / 8], m)]];
            disk := disk[b + bi := ZeroBlock()];
            logged := logged + {DataBlock(b + bi), BitmapBlock((b + bi) / BPB)};
            return Some(b + bi);
          }
          bi := bi + 1;
        }
        b := b + BPB;
      }
      r := None;
    }

    /** False is the panic on a block that is already free. */
    method Bfree(b: nat) returns (ok: bool)
      requires BitmapFor(bitmap, l.size) && b < l.size
      modifies `bitmap, `logged
      ensures ok == Marked(old(bitmap), b)
      ensures ok ==> bitmap == ClearBit(old(bitmap), b) && logged == old(logged) + {BitmapBlock(b / BPB)}
      ensures !ok ==> bitmap == old(bitmap) && logged == old(logged)
    {
      hide Mask, HasBit, WithoutBit;
      var bp := bitmap[b / BPB];
      var bi := b % BPB;
      var m := Mask(bi % 8);
      if !HasBit(bp[bi / 8], m) {
        return false;
      }
      bitmap := bitmap[b / BPB := bp[bi / 8 := WithoutBit(bp[bi / 8], m)]];
      logged := logged + {BitmapBlock(b / BPB)};
      ok := true;
    }

    /** bmap, the direct part. */
    method BmapDirect(i: nat, bn: nat) returns (r: Option<nat>)
      requires Consistent() && i < |inodes| && bn < NDIRECT
      modifies `bitmap, `disk, `inodes, `slots, `owner, `logged
      ensures Consistent()
      ensures r.None? ==>
        AllMarked(bitmap, l.size) && Now() == old(Now()) && owner == old(owner) && slots[i][SlotOf(bn)] == 0
      ensures r.Some? ==> Mapped(old(Now()), Now(), old(owner), i, bn) && r.value == slots[i][SlotOf(bn)]
      ensures r.Some? ==> logged == old(logged) + BmapLog(old(slots[i]), slots[i], bn)
      ensures Had(old(Now()), i, bn) ==> r.Some? && Now() == old(Now()) && bitmap == old(bitmap) && owner == old(owner)
    {
      hide Inverse, Bits, Blocks, WordAt, Put, SetBit, ZeroBlock;
      CoreParts(l, bitmap, disk, inodes, slots, owner);
      var addr := inodes[i].addrs[bn];
      if addr == 0 {
        ghost var bitmap0, disk0 := bitmap, disk;
        var b := Balloc();
        if b.None? {
          return None;
        }
        addr := b.value;
        FreeBlock(l, bitmap0, owner, addr);
        GiveDirect(l, bitmap0, disk0, inodes, slots, owner, i, bn, addr);
        inodes := inodes[i := inodes[i].(addrs := inodes[i].addrs[bn := addr])];
        slots, owner := Put(slots, i, bn, addr), owner[addr := Slot(i, bn)];
        GaveDirect(l, old(Now()), Now(), old(owner), i, bn, addr);
      } else {
        AlreadyMapped(Now(), owner, i, bn);
      }
      r := Some(addr);
    }

    /** bmap, finding or allocating the indirect block. */
    method BmapIndirect(i: nat) returns (r: Option<nat>)
      requires Consistent() && i < |inodes|
      modifies `bitmap, `disk, `inodes, `slots, `owner, `logged
      ensures Consistent()
      ensures r.None? ==>
        AllMarked(bitmap, l.size) && Now() == old(Now()) && owner == old(owner) && slots[i][NDIRECT] == 0
      ensures r.Some? ==> Indirected(old(Now()), Now(), old(owner), owner, i) && r.value == slots[i][NDIRECT]
      ensures r.Some? ==> logged == old(logged) + NewIndirectLog(old(slots), i, r.value)
      ensures old(inodes[i].addrs[NDIRECT]) != 0 ==>
        r.Some? && Now() == old(Now()) && bitmap == old(bitmap) && owner == old(owner)
    {
      hide Inverse, Bits, Blocks, WordAt, Put, SetBit, ZeroBlock;
      CoreParts(l, bitmap, disk, inodes, slots, owner);
      var addr := inodes[i].addrs[NDIRECT];
      if addr == 0 {
        ghost var bitmap0, disk0 := bitmap, disk;
        var b := Balloc();
        if b.None? {
          return None;
        }
        addr := b.value;
        FreeBlock(l, bitmap0, owner, addr);
        GiveIndirect(l, bitmap0, disk0, inodes, slots, owner, i, addr);
        inodes := inodes[i := inodes[i].(addrs := inodes[i].addrs[NDIRECT := addr])];
        slots, owner := Put(slots, i, NDIRECT, addr), owner[addr := Slot(i, NDIRECT)];
        GaveIndirect(l, old(Now()), Now(), old(owner), i, addr);
      }
      r := Some(addr);
    }

    /** bmap, the address a[j] in the indirect block at ind. */
    method BmapWord(i: nat, j: nat, ind: nat) returns (r: Option<nat>)
      requires Consistent() && i < |inodes| && j < NINDIRECT && ind == inodes[i].addrs[NDIRECT] && ind != 0
      modifies `bitmap, `disk, `slots, `owner, `logged
      ensures Consistent()
      ensures r.None? ==> AllMarked(bitmap, l.size) && Now() == old(Now()) && slots[i][SlotOf(NDIRECT + j)] == 0
      ensures r.Some? ==>
        Mapped(old(Now()), Now(), old(owner), i, NDIRECT + j) && r.value == slots[i][SlotOf(NDIRECT + j)]
      ensures r.Some? ==> logged == old(logged) + BmapLog(old(slots[i]), slots[i], NDIRECT + j)
      ensures Had(old(Now()), i, NDIRECT + j) ==>
        r.Some? && Now() == old(Now()) && bitmap == old(bitmap) && owner == old(owner)
    {
      hide Inverse, Bits, Blocks, WordAt, Put, SetBit, ZeroBlock, Word, StoreWord;
      CoreParts(l, bitmap, disk, inodes, slots, owner);
      WordRead(l, disk, inodes[i], slots, owner, i, j);
      var addr := Word(disk[ind], j);
      if addr == 0 {
        ghost var bitmap0, disk0 := bitmap, disk;
        var b := Balloc();
        if b.None? {
          return None;
        }
        addr := b.value;
        FreeBlock(l, bitmap0, owner, addr);
        GiveWord(l, bitmap0, disk0, inodes, slots, owner, i, j, addr);
        disk := disk[ind := StoreWord(disk[ind], j, addr)];
        logged := logged + {DataBlock(ind)};
        PutAt(slots, i, NDIRECT + 1 + j, addr, i, NDIRECT + 1 + j);
        slots, owner := Put(slots, i, NDIRECT + 1 + j, addr), owner[addr := Slot(i, NDIRECT + 1 + j)];
        GaveWord(l, old(Now()), Now(), old(owner), i, j, addr);
      } else {
        AlreadyMapped(Now(), owner, i, NDIRECT + j);
      }
      r := Some(addr);
    }

    /** None is a panic: out of range, or out of blocks. */
    method Bmap(i: nat, bn: nat) returns (r: Option<nat>)
      requires Consistent() && i < |inodes|
      modifies `bitmap, `disk, `inodes, `slots, `owner, `logged
      ensures Consistent()
      ensures bn >= MAXFILE ==> r.None? && Now() == old(Now()) && bitmap == old(bitmap) && owner == old(owner)
      ensures r.None? && bn < MAXFILE ==> AllMarked(bitmap, l.size) && Stuck(old(slots), slots, i, bn)
      ensures r.Some? ==>
        bn < MAXFILE && Mapped(old(Now()), Now(), old(owner), i, bn) && r.value == slots[i][SlotOf(bn)]
      ensures r.Some? ==> logged == old(logged) + LogOf(old(Now()), Now(), i, bn)
      ensures Had(old(Now()), i, bn) ==>
        r.Some? && Now() == old(Now()) && bitmap == old(bitmap) && owner == old(owner) && logged == old(logged)
    {
      hide Core, Kept, Stuck, Extends;
      r := None;
      RowsIn(l, bitmap, disk, inodes, slots, owner);
      if bn < NDIRECT {
        r := BmapDirect(i, bn);
      } else if bn < MAXFILE {
        NoIndirect(l, bitmap, disk, inodes, slots, owner, i, bn);
        InodeAddr(l, bitmap, disk, inodes, slots, owner, i);
        var ind := BmapIndirect(i);
        if ind.Some? {
          ghost var s1, owner1 := Now(), owner;
          InodeAddr(l, bitmap, disk, inodes, slots, owner, i);
          r := BmapWord(i, bn - NDIRECT, ind.value);
          if r.Some? {
            IndirectThenWord(old(Now()), s1, Now(), old(owner), owner1, i, bn);
          } else {
            StuckAfter(old(Now()), s1, old(owner), owner1, i, bn);
          }
        }
      }
      if r.None? && Now() == old(Now()) && bn < MAXFILE {
        StuckHere(slots, i, bn);
      }
      RowsIn(l, bitmap, disk, inodes, slots, owner);
    }

    method Iupdate(i: nat)
      requires i < |inodes| == |dinodes|
      modifies `dinodes, `logged
      ensures dinodes == old(dinodes)[i := inodes[i]] && logged == old(logged) + {InodeBlock(i / IPB)}
    {
      dinodes := dinodes[i := inodes[i]];
      logged := logged + {InodeBlock(i / IPB)};
    }

    /** One turn of writei's copy loop. False is a panic in balloc. */
    method WriteBlock(i: nat, src: seq<Byte>, off: nat, tot: nat, ghost s0: Snap, ghost logged0: set<LogBlock>)
      returns (m: nat, ok: bool)
      requires Turn(l, s0, logged0, bitmap, Now(), owner, logged, i, off, src, tot) && tot < |src|
      modifies `bitmap, `disk, `inodes, `slots, `owner, `logged
      ensures !ok ==> Consistent() && AllMarked(bitmap, l.size) && Grown(s0.slots, slots, i, off, |src|)
      ensures !ok ==> EmptySlot(s0.slots, slots, i, off, |src|)
      ensures ok ==> 0 < m <= |src| - tot && Turn(l, s0, logged0, bitmap, Now(), owner, logged, i, off, src, tot + m)
    {
      hide Core, Mapped, Splice, LogOf, AllMarked, Turn, CanStore, After, At, Had, PieceOf, Grown, Missing;
      ghost var s, bitmap1, owner1, logged1 := Now(), bitmap, owner, logged;
      TurnParts(l, s0, logged0, bitmap, s, owner, logged, i, off, src, tot);
      var o := off + tot;
      var b := Bmap(i, o / BSIZE);
      if b.None? {
        TurnWithin(off, |src|, tot);
        GrownStuck(s0.slots, s.slots, slots, i, off, |src|, o / BSIZE);
        return 0, false;
      }
      m := Min(|src| - tot, BSIZE - o % BSIZE);
      var piece := src[tot..tot + m];
      OnePiece(src, off, tot);
      TurnStep(l, s0, logged0, bitmap1, s, owner1, logged1, bitmap, Now(), owner, logged, i, off, src, tot, piece);
      AfterStore(Now(), i, o, piece);
      disk := disk[b.value := Splice(disk[b.value], o % BSIZE, piece)];
      logged := logged + {DataBlock(b.value)};
      ok := true;
    }

    /** The copy loop of writei. */
    method WriteBlocks(i: nat, src: seq<Byte>, off: nat) returns (ok: bool)
      requires Valid() && i < |inodes| && off <= inodes[i].size && off + |src| <= MAXBYTES
      modifies `bitmap, `disk, `inodes, `slots, `owner, `logged
      ensures Consistent() && Grown(old(slots), slots, i, off, |src|)
      ensures !ok ==> AllMarked(bitmap, l.size) && EmptySlot(old(slots), slots, i, off, |src|)
      ensures ok ==> Progress(old(Now()), Now(), i, off, src)
      ensures ok ==> Logging(old(slots)[i], slots[i], off / BSIZE, TouchedEnd(off, |src|), old(logged), logged)
    {
      hide Core, Progress, Logging, AllMarked, TouchedEnd, Turn, FilesOk, Grown, EmptySlot;
      ghost var s0, logged0 := Now(), logged;
      TurnStart(l, bitmap, s0, owner, logged, i, off, src);
      var tot := 0;
      while tot < |src|
        invariant 0 <= tot <= |src| && Turn(l, s0, logged0, bitmap, Now(), owner, logged, i, off, src, tot)
      {
        var m;
        m, ok := WriteBlock(i, src, off, tot, s0, logged0);
        if !ok {
          return;
        }
        tot := tot + m;
      }
      TurnParts(l, s0, logged0, bitmap, Now(), owner, logged, i, off, src, tot);
      assert src[..tot] == src;
      ok := true;
    }

    /** Returns -1 or |src|; ok is false for a panic in balloc, which comes exactly when the file
        grows by more blocks than are free. */
    method Writei(i: nat, src: seq<Byte>, off: nat) returns (r: int, ok: bool)
      requires Valid() && i < |inodes| && off < UINT && |src| < UINT
      modifies `bitmap, `disk, `inodes, `dinodes, `slots, `owner, `logged
      ensures !ok ==> AllMarked(bitmap, l.size)
      ensures Consistent() && Grown(old(slots), slots, i, off, |src|)
      ensures ok ==> Valid()
      ensures !WriteRefused(old(inodes)[i].size, off, |src|) ==>
        (ok <==> Needed(old(inodes)[i].size, off, |src|) <= |FreeBlocks(old(bitmap), l.size)|)
      ensures WriteRefused(old(inodes)[i].size, off, |src|) ==>
        && ok && r == -1 && Now() == old(Now()) && bitmap == old(bitmap) && dinodes == old(dinodes)
        && logged == old(logged)
      ensures ok && !WriteRefused(old(inodes)[i].size, off, |src|) ==>
        && r == |src|
        && i < |old(Files())| && off <= |old(Files())[i]|
        && Files() == old(Files())[i := Overwrite(old(Files())[i], off, src)]
        && logged == old(logged) + WriteiLog(old(Now()), Now(), i, off, |src|)
    {
      hide Core, Progress, Logging, FilesOf, FilesOk, AllMarked, Overwrite, TouchedEnd, WriteLog;
      hide Grown, Missing, FreeBlocks, EmptySlot, HoleFree, BlocksFor;
      var n := |src|;
      GrowsNot(l, bitmap, Now(), owner, i, off, n);
      if off > inodes[i].size || (off + n) % UINT < off {
        return -1, true;
      }
      if off + n > MAXBYTES {
        return -1, true;
      }
      FilesAt(Now(), i);
      MissingCount(slots[i], inodes[i].size, off, n);
      var done := WriteBlocks(i, src, off);
      if !done {
        RanOut(l, old(bitmap), old(Now()), old(owner), bitmap, Now(), owner, i, off, n);
        return -1, false;
      }
      HadEnough(l, old(bitmap), old(Now()), old(owner), bitmap, Now(), owner, i, off, src);
      WriteEnds(old(Now()), Now(), i, off, src);
      FilesAt(old(Now()), i);
      LoggedAll(old(slots)[i], slots[i], off, n, old(logged), logged);
      if n > 0 && off + n > inodes[i].size {
        ResizeCore(l, bitmap, Now(), owner, i, off + n);
        inodes := inodes[i := inodes[i].(size := off + n)];
        Iupdate(i);
      }
      return n, true;
    }

    /** Changes nothing: bmap finds every block that readi asks for. */
    method Readi(i: nat, off: nat, len: nat) returns (r: int, dst: seq<Byte>)
      requires Valid() && i < |inodes| && off < UINT && len < UINT
      modifies `bitmap, `disk, `inodes, `slots, `owner, `logged
      ensures Now() == old(Now()) && bitmap == old(bitmap) && owner == old(owner) && logged == old(logged) && Valid()
      ensures ReadRefused(inodes[i].size, off, len) ==> r == -1 && dst == []
      ensures !ReadRefused(inodes[i].size, off, len) ==>
        && r == Min(len, inodes[i].size - off)
        && i < |Files()| && off + r <= |Files()[i]| && dst == Files()[i][off..off + r]
    {
      hide Core, FilesOf, FilesOk, FileOf, Mapped, LogOf, Had, HoleFree;
      dst := [];
      FilesAt(Now(), i);
      if off > inodes[i].size || (off + len) % UINT < off {
        return -1, [];
      }
      var n := len;
      if off + n > inodes[i].size {
        n := inodes[i].size - off;
      }
      ghost var s0 := Now();
      ghost var c := FileOf(s0, i);
      var tot, o := 0, off;
      while tot < n
        invariant 0 <= tot <= n && o == off + tot
        invariant Now() == s0 && bitmap == old(bitmap) && owner == old(owner) && logged == old(logged)
        invariant dst == c[off..o]
      {
        BlockHad(s0, i, o);
        var b := Bmap(i, o / BSIZE);
        var m := Min(n - tot, BSIZE - o % BSIZE);
        ReadPiece(l, bitmap, s0, owner, i, o, m);
        dst := dst + disk[b.value][o % BSIZE..o % BSIZE + m];
        assert c[off..o] + c[o..o + m] == c[off..o + m];
        tot, o := tot + m, o + m;
      }
      r := n;
    }

    /** itrunc, the direct blocks. */
    method FreeDirect(i: nat)
      requires Consistent() && i < |inodes|
      modifies `bitmap, `inodes, `slots, `owner, `logged
      ensures |inodes| == |old(inodes)| && (forall j :: 0 <= j < |inodes| && j != i ==> inodes[j] == old(inodes)[j])
      ensures |inodes[i].addrs| == NDIRECT + 1 && inodes[i].addrs[NDIRECT] == old(inodes)[i].addrs[NDIRECT]
      ensures forall k :: 0 <= k < NDIRECT ==> inodes[i].addrs[k] == 0
      ensures Cutting(l, bitmap, old(slots), slots, owner, i, NDIRECT)
    {
      hide Core, Inverse, Bits, Put, Dropped, ClearBit;
      CoreParts(l, bitmap, disk, inodes, slots, owner);
      CutStart(l, bitmap, disk, inodes, slots, owner, i);
      hide Cutting;
      ghost var slots0 := slots;
      var k := 0;
      while k < NDIRECT
        invariant 0 <= k <= NDIRECT && LayoutOk(l) && BitmapFor(bitmap, l.size) && Rows(slots) && |slots| == |slots0|
        invariant |inodes| == |old(inodes)| && (forall j :: 0 <= j < |inodes| && j != i ==> inodes[j] == old(inodes)[j])
        invariant |inodes[i].addrs| == NDIRECT + 1
        invariant forall k' :: 0 <= k' <= NDIRECT ==> inodes[i].addrs[k'] == if k' < k then 0 else slots0[i][k']
        invariant Cutting(l, bitmap, slots0, slots, owner, i, k)
      {
        CutStep(l, bitmap, slots0, slots, owner, i, k);
        var a := inodes[i].addrs[k];
        if a != 0 {
          var ok := Bfree(a);
          assert ok;
          inodes := inodes[i := inodes[i].(addrs := inodes[i].addrs[k := 0])];
          slots, owner := Put(slots, i, k, 0), Dropped(owner, a);
        }
        CutBitmap(l, bitmap, slots0, slots, owner, i, k + 1);
        k := k + 1;
      }
    }

    /** itrunc, the blocks listed in the indirect block at ind, and that block. */
    method FreeIndirect(i: nat, ind: nat, ghost slots0: seq<Row>)
      requires LayoutOk(l) && Cutting(l, bitmap, slots0, slots, owner, i, NDIRECT)
      requires 0 < ind < |disk| && IsBlock(disk[ind]) && ind == slots0[i][NDIRECT]
      requires forall j :: 0 <= j < NINDIRECT ==> WordAt(disk, slots0[i], j)
      modifies `bitmap, `slots, `owner, `logged
      ensures Cutting(l, bitmap, slots0, slots, owner, i, NSLOT)
    {
      hide Inverse, Bits, Put, Dropped, ClearBit, Word;
      CutBitmap(l, bitmap, slots0, slots, owner, i, NDIRECT);
      var j := 0;
      while j < NINDIRECT
        invariant 0 <= j <= NINDIRECT && BitmapFor(bitmap, l.size) && Rows(slots) && |slots| == |slots0|
        invariant Cutting(l, bitmap, slots0, slots, owner, i, NDIRECT + j)
      {
        hide Cutting;
        CutStep(l, bitmap, slots0, slots, owner, i, NDIRECT + j);
        var a := Word(disk[ind], j);
        assert WordAt(disk, slots0[i], j);
        if a != 0 {
          var ok := Bfree(a);
          assert ok;
          slots, owner := Put(slots, i, NDIRECT + 1 + j, 0), Dropped(owner, a);
        }
        CutBitmap(l, bitmap, slots0, slots, owner, i, NDIRECT + j + 1);
        j := j + 1;
      }
      CutStep(l, bitmap, slots0, slots, owner, i, MAXFILE);
      var ok := Bfree(ind);
      assert ok;
      slots, owner := Put(slots, i, NDIRECT, 0), Dropped(owner, ind);
    }

    /** Frees exactly inode i's blocks, none of them twice, and empties its file. */
    method Itrunc(i: nat)
      requires Valid() && i < |inodes|
      modifies `bitmap, `inodes, `dinodes, `slots, `owner, `logged
      ensures Valid() && Files() == old(Files())[i := []]
      ensures BitmapFor(old(bitmap), l.size) && BitmapFor(bitmap, l.size)
      ensures forall b :: 0 <= b < l.size ==>
        (Marked(bitmap, b) <==> Marked(old(bitmap), b) && !(b in old(owner) && old(owner)[b].inum == i))
      ensures inodes == old(inodes)[i := EmptyInode()]
    {
      hide Core, Inverse, Bits, FilesOk, FilesOf, Cutting, Marked, WordAt;
      ghost var s0, bitmap0, owner0 := Now(), bitmap, owner;
      CoreParts(l, bitmap, disk, inodes, slots, owner);
      FreeDirect(i);
      var ind := inodes[i].addrs[NDIRECT];
      IndirectCut(l, bitmap0, s0, owner0, bitmap, slots, owner, i);
      if ind != 0 {
        FreeIndirect(i, ind, s0.slots);
        inodes := inodes[i := inodes[i].(addrs := inodes[i].addrs[NDIRECT := 0])];
      }
      inodes := inodes[i := inodes[i].(size := 0)];
      assert inodes[i].addrs == EmptyInode().addrs;
      assert inodes == Emptied(s0, i, slots).inodes;
      TruncEnds(l, s0, bitmap0, owner0, bitmap, slots, owner, i);
      TruncAllBits(l, bitmap0, disk, s0.inodes, s0.slots, owner0, bitmap, slots, owner, i);
      Iupdate(i);
    }

    /** One operation on file i; ok is false for a panic in balloc. */
    method Step(op: Op) returns (r: Result, ok: bool)
      requires Valid() && OpOk(op, |inodes|)
      modifies this
      ensures !ok ==> AllMarked(bitmap, l.size)
      ensures ok ==> Valid() && |inodes| == old(|inodes|)
      ensures ok ==> FlatStep(old(Files()), op) == (Files(), r)
      ensures ok <==> DiskHolds(FlatStep(old(Files()), op).0, l)
    {
      hide Core, FilesOf, FilesOk, Overwrite, Marked, WriteiLog, FreeBlocks, Total, BlocksFor, Grown;
      FilesAt(Now(), op.i);
      Capacity(l, bitmap, Now(), owner);
      ok := true;
      match op {
        case Write(i, src, off) =>
          if !WriteRefused(inodes[i].size, off, |src|) {
            WriteHolds(Files(), i, src, off, l);
          }
          var n;
          n, ok := Writei(i, src, off);
          r := Count(n);
        case Read(i, off, len) =>
          var n, dst := Readi(i, off, len);
          r := if n < 0 then Count(-1) else Bytes(dst);
        case Trunc(i) =>
          TruncHolds(Files(), i, l);
          Itrunc(i);
          r := Count(0);
      }
      if ok {
        FilesLen(Now());
      }
    }

    /** Over every run the file system behaves as plain byte sequences, one per inode, on a disk of
        fixed capacity: it panics exactly when the files would take more blocks than there are. */
    method Run(ops: seq<Op>) returns (rs: seq<Result>, ok: bool)
      requires Valid() && forall k :: 0 <= k < |ops| ==> OpOk(ops[k], |inodes|)
      modifies this
      ensures !ok ==> AllMarked(bitmap, l.size)
      ensures ok ==> Valid() && |rs| == |ops| && FlatRun(old(Files()), ops) == (Files(), rs)
      ensures ok <==> DiskHoldsRun(old(Files()), ops, l)
      ensures ok ==> forall k :: 0 <= k < |ops| ==> rs[k] == Answer(old(Files()), ops[..k], ops[k])
    {
      hide Core, FilesOf, FilesOk, AllMarked, FlatStep, DiskHolds, Answer;
      Capacity(l, bitmap, Now(), owner);
      HoldsNow(Files(), bitmap, l);
      RunPrefix(Files(), ops, 0, l);
      assert ops[..|ops|] == ops;
      rs, ok := [], true;
      ghost var n := |inodes|;
      var k := 0;
      while k < |ops|
        invariant 0 <= k <= |ops| && Valid() && |inodes| == n && |rs| == k
        invariant FlatRun(old(Files()), ops[..k]) == (Files(), rs) && DiskHoldsRun(old(Files()), ops[..k], l)
        invariant forall j :: 0 <= j < k ==> rs[j] == Answer(old(Files()), ops[..j], ops[j])
      {
        RunPrefix(old(Files()), ops, k + 1, l);
        assert ops[..k + 1][..k] == ops[..k];
        ghost var files0, rs0 := Files(), rs;
        RunSnoc(old(Files()), ops, k);
        AnswerMeaning(old(Files()), ops[..k], ops[k]);
        var r;
        r, ok := Step(ops[k]);
        if !ok {
          return;
        }
        rs := rs + [r];
        k := k + 1;
      }
    }
  }
}
