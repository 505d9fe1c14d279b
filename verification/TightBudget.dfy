/** The ten blocks that an operation reserves (MAXOPBLOCKS in param.h, filewrite in file.c) are
    reached: one chunk, written to a nearly full disk, logs exactly ten. */
module TightBudget {
  import opened Common
  import opened DiskFormat
  import opened Ownership
  import opened FileData
  import opened Fs
  import opened OpenFile
  import opened Sets
  import opened Space

  /** Just after the start of the last direct block. */
  const OFF := 11 * BSIZE + 1

  /** No two blocks have their bits in the same bitmap block. */
  predicate Spread(blocks: set<nat>) {
    forall a, b :: a in blocks && b in blocks && a / BPB == b / BPB ==> a == b
  }

  // ----- such a write logs ten blocks

  /** Ten blocks: the old one, the indirect block and three data blocks, which are new, the
      bitmap blocks of these four, and the inode's. */
  function Logged(row: Row, inode: LogBlock, k: nat): LogBlock
    requires |row| == NSLOT
  {
    if k < 5 then DataBlock(row[11 + k]) else if k < 9 then BitmapBlock(row[7 + k] / BPB) else inode
  }

  lemma LoggedIn(row0: Row, row: Row, inode: LogBlock, k: nat)
    requires |row0| == |row| == NSLOT && k < 10 && forall j :: 12 <= j <= 15 ==> row0[j] == 0
    ensures Logged(row, inode, k) in WriteLog(row0, row, 11, 15) + {inode}
  {
    var bn := if k < 5 then k + 10 else k + 6;
    assert k < 9 && bn != 11 && 11 <= bn ==> SlotOf(bn) == if k < 5 then 11 + k else 7 + k;
    assert SlotOf(11) == 11 && SlotOf(12) == 13 && SlotOf(13) == 14 && SlotOf(14) == 15;
    if k == 0 {
      BlockIn(row0, row, 11, 15);
    } else if k != 1 && k != 5 && k < 9 {
      BlockIn(row0, row, bn, 15);
    }
  }

  lemma LoggedApart(row: Row, inode: LogBlock, j: nat, k: nat)
    requires |row| == NSLOT && inode.InodeBlock? && j < 10 && k < 10
    requires forall j, k :: 11 <= j < k <= 15 ==> row[j] != row[k]
    requires forall j, k :: 12 <= j < k <= 15 ==> row[j] / BPB != row[k] / BPB
    ensures Logged(row, inode, j) == Logged(row, inode, k) ==> j == k
  {}

  lemma {:induction false} BlockIn(row0: Row, row: Row, bn: nat, hi: nat)
    requires |row0| == |row| == NSLOT && 11 <= bn < hi <= MAXFILE
    ensures BlockLog(row0, row, bn) <= DataLog(row0, row, 11, hi)
    decreases hi
  {
    if bn < hi - 1 {
      BlockIn(row0, row, bn, hi - 1);
    }
  }

  lemma TenBlocks(row0: Row, row: Row, inode: LogBlock)
    requires |row0| == |row| == NSLOT && inode.InodeBlock?
    requires forall k :: 12 <= k <= 15 ==> row0[k] == 0
    requires forall j, k :: 11 <= j < k <= 15 ==> row[j] != row[k]
    requires forall j, k :: 12 <= j < k <= 15 ==> row[j] / BPB != row[k] / BPB
    ensures 10 <= |WriteLog(row0, row, 11, 15) + {inode}|
  {
    hide WriteLog, Logged;
    var all := WriteLog(row0, row, 11, 15) + {inode};
    var log := seq(10, k requires 0 <= k < 10 => Logged(row, inode, k));
    forall j, k | 0 <= j < k < 10
      ensures log[j] != log[k]
    {
      LoggedApart(row, inode, j, k);
    }
    forall k | 0 <= k < 10
      ensures log[k] in all
    {
      LoggedIn(row0, row, inode, k);
    }
    ListSize(log, all);
  }

  lemma Distinct(l: Layout, slots: seq<Row>, owner: Owner, i: nat, j: nat, k: nat)
    requires Inverse(l, slots, owner) && i < |slots| && j < k < NSLOT && slots[i][j] != 0
    ensures slots[i][j] != slots[i][k]
  {
    HeldOnce(l, slots, owner, i, j, i, k);
  }

  /** The rows before and after the write. */
  lemma TightRows(l: Layout, bitmap0: seq<seq<bv8>>, s0: Snap, owner0: Owner, bitmap: seq<seq<bv8>>, s: Snap,
                  owner: Owner, i: nat)
    requires Core(l, bitmap0, s0.disk, s0.inodes, s0.slots, owner0) && Core(l, bitmap, s.disk, s.inodes, s.slots, owner)
    requires FileOk(s0, i) && FileOk(s, i) && s0.inodes[i].size == OFF && s.inodes[i].size == OFF + CHUNK
    requires Grown(s0.slots, s.slots, i, OFF, CHUNK) && Spread(FreeBlocks(bitmap0, l.size))
    ensures 10 <= |WriteLog(s0.slots[i], s.slots[i], 11, 15) + {InodeBlock(i / IPB)}|
  {
    hide Bits, Inverse, AllRead, FreeBlocks, Grown, WriteLog;
    var row0, row := s0.slots[i], s.slots[i];
    assert TouchedEnd(OFF, CHUNK) == 15;
    SlotFilled(row0, OFF, 11);
    forall k | 12 <= k <= 15
      ensures row0[k] == 0 && row[k] != 0 && row[k] in FreeBlocks(bitmap0, l.size)
    {
      SlotFilled(row0, OFF, k);
      SlotFilled(row, OFF + CHUNK, k);
      assert k in Missing(row0, OFF, CHUNK);
      FilledWasFree(l, bitmap0, s0.slots, owner0, s.slots, owner, i, OFF, CHUNK, k);
    }
    SlotFilled(row, OFF + CHUNK, 11);
    forall j, k | 11 <= j < k <= 15
      ensures row[j] != row[k]
    {
      SlotFilled(row, OFF + CHUNK, j);
      Distinct(l, s.slots, owner, i, j, k);
    }
    TenBlocks(row0, row, InodeBlock(i / IPB));
  }

  /** The bound of ten is reached: on a disk with four free blocks, in four different bitmap
      blocks, a file that ends just after the start of its last direct block is extended by a full
      chunk. */
  method TightWrite(fs: FileSystem, i: nat, src: seq<Byte>)
    requires fs.Valid() && i < |fs.inodes| && fs.inodes[i].size == OFF && |src| == CHUNK
    requires |FreeBlocks(fs.bitmap, fs.l.size)| == 4 && Spread(FreeBlocks(fs.bitmap, fs.l.size))
    modifies fs
    ensures fs.Valid() && i < |old(fs.Files())| && |old(fs.Files())[i]| == OFF
    ensures fs.Files() == old(fs.Files())[i := old(fs.Files())[i] + src]
    ensures fs.logged == old(fs.logged) + WriteiLog(old(fs.Now()), fs.Now(), i, OFF, CHUNK)
    ensures |WriteiLog(old(fs.Now()), fs.Now(), i, OFF, CHUNK)| == MAXOPBLOCKS
  {
    hide Core, FilesOk, FilesOf, FreeBlocks, Grown, Spread, WriteLog, AllMarked;
    FilesAt(fs.Now(), i);
    assert Needed(OFF, OFF, CHUNK) == 4;
    ghost var s0, bitmap0, owner0 := fs.Now(), fs.bitmap, fs.owner;
    ghost var c := fs.Files()[i];
    assert Overwrite(c, OFF, src) == c + src;
    var r, ok := fs.Writei(i, src, OFF);
    FilesLen(fs.Now());
    FilesAt(fs.Now(), i);
    assert |fs.Files()[i]| == OFF + CHUNK;
    TightRows(fs.l, bitmap0, s0, owner0, fs.bitmap, fs.Now(), fs.owner, i);
    OperationBudget(s0, fs.Now(), i, OFF, CHUNK);
    assert TouchedEnd(OFF, CHUNK) == 15 && OFF / BSIZE == 11;
  }

  // ----- there is such a disk

  /** Blocks below META are metadata; of the rest, four are free. */
  const META := 4095
  const SIZE := 12289
  const FREE: set<nat> := {4095, 8191, 8192, 12288}

  /** Inode 0 is the short file, FILLERS others are as large as a file can be. */
  const FILLERS := 58

  predicate Data(a: nat) {
    4096 <= a < 8191 || 8193 <= a < 12288
  }

  /** The data blocks after the twelve of inode 0, in order. */
  function Addr(t: nat): nat {
    if t < 4083 then 4108 + t else t + 4110
  }

  function Place(a: nat): int {
    if a < 8191 then a - 4108 else a - 4110
  }

  /** Slot k of inode i. A row has 141 slots. */
  function AddrOf(i: nat, k: nat): nat {
    if i > 0 then Addr((i - 1) * 141 + k) else if k < NDIRECT then 4096 + k else 0
  }

  function RowOf(i: nat): (row: Row)
    ensures |row| == NSLOT && forall k: nat :: k < NSLOT ==> row[k] == AddrOf(i, k)
  {
    seq(NSLOT, k requires 0 <= k < NSLOT => AddrOf(i, k))
  }

  function HolderOf(a: nat): Slot
    requires Data(a)
  {
    if a < 4108 then Slot(0, a - 4096) else Slot(Place(a) / 141 + 1, Place(a) % 141)
  }

  lemma Divide(i: nat, k: nat)
    requires k < 141
    ensures (i * 141 + k) / 141 == i && (i * 141 + k) % 141 == k
  {}

  lemma RowHolder(i: nat, k: nat)
    requires i <= FILLERS && k < NSLOT && AddrOf(i, k) != 0
    ensures Data(AddrOf(i, k)) && HolderOf(AddrOf(i, k)) == Slot(i, k)
  {
    if i > 0 {
      Divide(i - 1, k);
      assert (i - 1) * 141 + k < 8178;
    }
  }

  lemma HolderRow(a: nat)
    requires Data(a)
    ensures HolderOf(a).inum <= FILLERS && HolderOf(a).k < NSLOT && AddrOf(HolderOf(a).inum, HolderOf(a).k) == a
  {
    assert NSLOT == 141;
    assert a >= 4108 ==> 0 <= Place(a) < 8178 && Addr(Place(a)) == a;
  }

  /** An indirect block with the given words. */
  function Words(ws: seq<nat>): (d: seq<Byte>)
    requires |ws| <= NINDIRECT && forall j :: 0 <= j < |ws| ==> ws[j] < UINT
    ensures IsBlock(d)
  {
    if ws == [] then ZeroBlock()
    else
      var n := |ws| - 1;
      StoreWord(Words(ws[..n]), n, ws[n])
  }

  lemma {:induction false} WordsAt(ws: seq<nat>, j: nat)
    requires |ws| <= NINDIRECT && j < |ws| && forall j :: 0 <= j < |ws| ==> ws[j] < UINT
    ensures Word(Words(ws), j) == ws[j]
    decreases |ws|
  {
    var n := |ws| - 1;
    WordStored(Words(ws[..n]), n, ws[n], j);
    if j < n {
      WordsAt(ws[..n], j);
    }
  }

  lemma RowBound(i: nat, k: nat)
    requires i <= FILLERS && k < NSLOT
    ensures AddrOf(i, k) < SIZE && (AddrOf(i, k) == 0 <==> i == 0 && k >= NDIRECT)
  {
    assert i > 0 ==> (i - 1) * 141 + k < 8178;
  }

  lemma RowBounds(i: nat)
    requires i <= FILLERS
    ensures forall k: nat :: k < NSLOT ==> AddrOf(i, k) < UINT
  {
    forall k: nat | k < NSLOT
      ensures AddrOf(i, k) < UINT
    {
      RowBound(i, k);
    }
  }

  /** The words that inode i's indirect block holds. */
  function Listed(i: nat): (ws: seq<nat>)
    requires i <= FILLERS
    ensures |ws| == NINDIRECT && forall j: nat :: j < NINDIRECT ==> ws[j] == AddrOf(i, NDIRECT + 1 + j) && ws[j] < UINT
  {
    RowBounds(i);
    RowOf(i)[NDIRECT + 1..]
  }

  function BlockAt(a: nat): (d: seq<Byte>)
    ensures IsBlock(d)
  {
    if Data(a) && HolderOf(a).k == NDIRECT then
      HolderRow(a);
      Words(Listed(HolderOf(a).inum))
    else ZeroBlock()
  }

  function SizeOf(i: nat): nat {
    if i == 0 then OFF else MAXBYTES
  }

  function TightSnap(): Snap {
    Snap(seq(SIZE, a requires 0 <= a < SIZE => BlockAt(a)),
         seq(FILLERS + 1, i requires 0 <= i <= FILLERS => Inode(SizeOf(i), RowOf(i)[..NDIRECT + 1])),
         seq(FILLERS + 1, i requires 0 <= i <= FILLERS => RowOf(i)))
  }

  function TightOwner(): Owner {
    map a: nat | a < SIZE && Data(a) :: HolderOf(a)
  }

  const LAYOUT := Layout(SIZE, META)

  lemma TightInverse()
    ensures Inverse(LAYOUT, TightSnap().slots, TightOwner())
  {
    var slots, owner := TightSnap().slots, TightOwner();
    forall i, k | 0 <= i < |slots| && 0 <= k < NSLOT
      ensures Recorded(owner, slots[i][k], i, k)
    {
      RowBound(i, k);
      if AddrOf(i, k) != 0 {
        RowHolder(i, k);
      }
    }
    forall a | a in owner
      ensures Held(LAYOUT, slots, a, owner[a])
    {
      HolderRow(a);
    }
  }

  lemma TightReads(i: nat)
    requires i <= FILLERS
    ensures Reads(TightSnap().disk, TightSnap().inodes[i], TightSnap().slots[i])
  {
    var disk, row := TightSnap().disk, RowOf(i);
    RowBound(i, NDIRECT);
    forall j | 0 <= j < NINDIRECT
      ensures WordAt(disk, row, j)
    {
      RowBound(i, NDIRECT + 1 + j);
      if i > 0 {
        RowHolder(i, NDIRECT);
        assert disk[row[NDIRECT]] == Words(Listed(i));
        WordsAt(Listed(i), j);
      }
    }
  }

  lemma TightFile(i: nat)
    requires i <= FILLERS
    ensures FileOk(TightSnap(), i)
  {
    forall bn | 0 <= bn < MAXFILE
      ensures AddrOf(i, SlotOf(bn)) != 0 <==> bn * BSIZE < SizeOf(i)
    {
      RowBound(i, SlotOf(bn));
    }
    RowBound(i, NDIRECT);
  }

  // ----- its bitmap

  /** Four bitmap blocks in which exactly the blocks of free are free. */
  ghost predicate FreeAre(bitmap: seq<seq<bv8>>, free: set<nat>) {
    && BitmapFor(bitmap, 4 * BPB)
    && (forall c :: 0 <= c < 4 * BPB ==> (Marked(bitmap, c) <==> c !in free))
  }

  lemma FullBitmap() returns (bitmap: seq<seq<bv8>>)
    ensures FreeAre(bitmap, {})
  {
    bitmap := seq(4, _ => seq(BSIZE, _ => 255));
    forall c | 0 <= c < 4 * BPB
      ensures Marked(bitmap, c)
    {
      assert HasBit(255, Mask(c % BPB % 8));
    }
  }

  lemma FreeOne(bitmap: seq<seq<bv8>>, free: set<nat>, b: nat) returns (bitmap': seq<seq<bv8>>)
    requires FreeAre(bitmap, free) && b < 4 * BPB
    ensures FreeAre(bitmap', free + {b})
  {
    hide Marked, ClearBit;
    bitmap' := ClearBit(bitmap, b);
    ClearMarks(bitmap, 4 * BPB, b, b);
    forall c | 0 <= c < 4 * BPB
      ensures Marked(bitmap', c) <==> c !in free + {b}
    {
      ClearMarks(bitmap, 4 * BPB, b, c);
    }
  }

  lemma TightBitmap() returns (bitmap: seq<seq<bv8>>)
    ensures FreeAre(bitmap, FREE)
  {
    hide FreeAre;
    bitmap := FullBitmap();
    bitmap := FreeOne(bitmap, {}, 4095);
    bitmap := FreeOne(bitmap, {} + {4095}, 8191);
    bitmap := FreeOne(bitmap, {} + {4095} + {8191}, 8192);
    bitmap := FreeOne(bitmap, {} + {4095} + {8191} + {8192}, 12288);
    assert FREE == {} + {4095} + {8191} + {8192} + {12288};
  }

  /** A consistent disk on which the write above is possible. */
  lemma TightDisk() returns (bitmap: seq<seq<bv8>>)
    ensures Core(LAYOUT, bitmap, TightSnap().disk, TightSnap().inodes, TightSnap().slots, TightOwner())
    ensures FilesOk(TightSnap()) && TightSnap().inodes[0].size == OFF
    ensures |FreeBlocks(bitmap, SIZE)| == 4 && Spread(FreeBlocks(bitmap, SIZE))
  {
    bitmap := TightBitmap();
    hide Marked, RowOf, Inverse, Reads, FileOk, BlockAt;
    TightInverse();
    var s := TightSnap();
    forall i | 0 <= i <= FILLERS
      ensures Reads(s.disk, s.inodes[i], s.slots[i]) && FileOk(s, i)
    {
      TightReads(i);
      TightFile(i);
    }
    assert FreeBlocks(bitmap, SIZE) == FREE;
    assert |FREE| == 4;
  }
}
