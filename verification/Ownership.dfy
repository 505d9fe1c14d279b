/** Which inode slot owns which disk block (fs.c). A slot is one of an inode's NDIRECT direct
    addresses, its indirect address, or one of the NINDIRECT addresses in its indirect block. */
module Ownership {
  import opened Common
  import opened DiskFormat

  const NDIRECT := 12
  const MAXFILE := NDIRECT + NINDIRECT
  const NSLOT := NDIRECT + 1 + NINDIRECT

  datatype Inode = Inode(size: nat, addrs: seq<nat>)

  datatype Slot = Slot(inum: nat, k: nat)

  type Row = seq<nat>

  type Owner = map<nat, Slot>

  /** Blocks below nmeta hold the boot block, super block, log, inodes and bitmap. */
  datatype Layout = Layout(size: nat, nmeta: nat)

  predicate LayoutOk(l: Layout) {
    0 < l.nmeta <= l.size < UINT
  }

  /** The slot of file block bn; slot NDIRECT is the indirect block itself. */
  function SlotOf(bn: nat): nat {
    if bn < NDIRECT then bn else bn + 1
  }

  predicate Rows(slots: seq<Row>) {
    forall i :: 0 <= i < |slots| ==> |slots[i]| == NSLOT
  }

  predicate Recorded(owner: Owner, a: nat, i: nat, k: nat) {
    a != 0 ==> a in owner && owner[a] == Slot(i, k)
  }

  predicate Held(l: Layout, slots: seq<Row>, a: nat, s: Slot)
    requires Rows(slots)
  {
    l.nmeta <= a < l.size && s.inum < |slots| && s.k < NSLOT && slots[s.inum][s.k] == a
  }

  /** owner is the inverse of the slots: every nonzero address is held by exactly one slot. */
  predicate Inverse(l: Layout, slots: seq<Row>, owner: Owner) {
    && Rows(slots)
    && (forall i, k :: 0 <= i < |slots| && 0 <= k < NSLOT ==> Recorded(owner, slots[i][k], i, k))
    && (forall a :: a in owner ==> Held(l, slots, a, owner[a]))
  }

  /** The bitmap marks exactly the blocks that are metadata or owned. */
  predicate Bits(l: Layout, bitmap: seq<seq<bv8>>, owner: Owner) {
    && BitmapFor(bitmap, l.size)
    && (forall b :: 0 <= b < l.size ==> (Marked(bitmap, b) <==> b < l.nmeta || b in owner))
  }

  predicate Blocks(l: Layout, disk: seq<seq<Byte>>) {
    |disk| == l.size && forall b :: 0 <= b < |disk| ==> IsBlock(disk[b])
  }

  function IndirectWord(disk: seq<seq<Byte>>, ind: nat, j: nat): nat
    requires j < NINDIRECT
  {
    if 0 < ind < |disk| && IsBlock(disk[ind]) then Word(disk[ind], j) else 0
  }

  predicate WordAt(disk: seq<seq<Byte>>, row: Row, j: nat)
    requires |row| == NSLOT && j < NINDIRECT
  {
    row[NDIRECT + 1 + j] == IndirectWord(disk, row[NDIRECT], j)
  }

  /** The addresses of one inode: in the inode, and in its indirect block if it has one. */
  predicate Reads(disk: seq<seq<Byte>>, inode: Inode, row: Row) {
    && |row| == NSLOT && |inode.addrs| == NDIRECT + 1
    && (forall k :: 0 <= k <= NDIRECT ==> row[k] == inode.addrs[k])
    && (forall j :: 0 <= j < NINDIRECT ==> WordAt(disk, row, j))
  }

  predicate AllRead(disk: seq<seq<Byte>>, inodes: seq<Inode>, slots: seq<Row>) {
    |inodes| == |slots| && forall i :: 0 <= i < |inodes| ==> Reads(disk, inodes[i], slots[i])
  }

  /** What every operation keeps. */
  predicate Core(l: Layout, bitmap: seq<seq<bv8>>, disk: seq<seq<Byte>>, inodes: seq<Inode>, slots: seq<Row>,
                 owner: Owner) {
    LayoutOk(l) && Bits(l, bitmap, owner) && Blocks(l, disk) && AllRead(disk, inodes, slots) && Inverse(l, slots, owner)
  }

  /** No address is held by two slots. */
  lemma HeldOnce(l: Layout, slots: seq<Row>, owner: Owner, i: nat, k: nat, i': nat, k': nat)
    requires Inverse(l, slots, owner) && i < |slots| && k < NSLOT && i' < |slots| && k' < NSLOT
    ensures slots[i][k] == slots[i'][k'] != 0 ==> i == i' && k == k'
  {
    assert Recorded(owner, slots[i][k], i, k) && Recorded(owner, slots[i'][k'], i', k');
  }

  function Put(slots: seq<Row>, i: nat, k: nat, a: nat): seq<Row>
    requires Rows(slots) && i < |slots| && k < NSLOT
  {
    var row: Row := slots[i][k := a];
    slots[i := row]
  }

  lemma PutAt(slots: seq<Row>, i: nat, k: nat, a: nat, i': nat, k': nat)
    requires Rows(slots) && i < |slots| && k < NSLOT && i' < |slots| && k' < NSLOT
    ensures Rows(Put(slots, i, k, a)) && |Put(slots, i, k, a)| == |slots|
    ensures Put(slots, i, k, a)[i'][k'] == if i' == i && k' == k then a else slots[i'][k']
  {}

  // ----- allocation and release, as they change the ownership

  /** A free block given to an empty slot. */
  lemma GiveInverse(l: Layout, slots: seq<Row>, owner: Owner, i: nat, k: nat, b: nat)
    requires Inverse(l, slots, owner) && i < |slots| && k < NSLOT && slots[i][k] == 0
    requires 0 < l.nmeta <= b < l.size && b !in owner
    ensures Inverse(l, Put(slots, i, k, b), owner[b := Slot(i, k)])
  {
    var slots', owner' := Put(slots, i, k, b), owner[b := Slot(i, k)];
    PutAt(slots, i, k, b, i, k);
    forall i', k' | 0 <= i' < |slots'| && 0 <= k' < NSLOT
      ensures Recorded(owner', slots'[i'][k'], i', k')
    {
      PutAt(slots, i, k, b, i', k');
      assert Recorded(owner, slots[i'][k'], i', k');
    }
    forall a | a in owner'
      ensures Held(l, slots', a, owner'[a])
    {
      if a != b {
        assert Held(l, slots, a, owner[a]);
        PutAt(slots, i, k, b, owner[a].inum, owner[a].k);
      }
    }
  }

  lemma GiveBits(l: Layout, bitmap: seq<seq<bv8>>, owner: Owner, b: nat, s: Slot)
    requires Bits(l, bitmap, owner) && l.nmeta <= b < l.size
    ensures Bits(l, SetBit(bitmap, b), owner[b := s])
  {
    SetMarks(bitmap, l.size, b, b);
    forall c | 0 <= c < l.size
      ensures Marked(SetBit(bitmap, b), c) <==> c == b || Marked(bitmap, c)
    {
      SetMarks(bitmap, l.size, b, c);
    }
  }

  function Dropped(owner: Owner, a: nat): Owner {
    map b | b in owner && b != a :: owner[b]
  }

  /** An owned block taken from its slot. */
  lemma TakeInverse(l: Layout, slots: seq<Row>, owner: Owner, i: nat, k: nat)
    requires Inverse(l, slots, owner) && i < |slots| && k < NSLOT && slots[i][k] != 0
    ensures Inverse(l, Put(slots, i, k, 0), Dropped(owner, slots[i][k]))
  {
    var a0 := slots[i][k];
    var slots', owner' := Put(slots, i, k, 0), Dropped(owner, a0);
    PutAt(slots, i, k, 0, i, k);
    assert Recorded(owner, a0, i, k);
    forall i', k' | 0 <= i' < |slots'| && 0 <= k' < NSLOT
      ensures Recorded(owner', slots'[i'][k'], i', k')
    {
      PutAt(slots, i, k, 0, i', k');
      assert Recorded(owner, slots[i'][k'], i', k');
    }
    forall a | a in owner'
      ensures Held(l, slots', a, owner'[a])
    {
      assert Held(l, slots, a, owner[a]);
      PutAt(slots, i, k, 0, owner[a].inum, owner[a].k);
    }
  }

  lemma TakeBits(l: Layout, bitmap: seq<seq<bv8>>, owner: Owner, a: nat)
    requires Bits(l, bitmap, owner) && l.nmeta <= a < l.size && a in owner
    ensures Bits(l, ClearBit(bitmap, a), Dropped(owner, a)) && Marked(bitmap, a)
  {
    ClearMarks(bitmap, l.size, a, a);
    forall c | 0 <= c < l.size
      ensures Marked(ClearBit(bitmap, a), c) <==> c != a && Marked(bitmap, c)
    {
      ClearMarks(bitmap, l.size, a, c);
    }
  }

  // ----- disk writes that keep the addresses readable

  /** A write to a block that is no inode's indirect block. */
  lemma WriteElsewhere(disk: seq<seq<Byte>>, inodes: seq<Inode>, slots: seq<Row>, a: nat, d: seq<Byte>)
    requires AllRead(disk, inodes, slots) && a < |disk|
    requires forall i :: 0 <= i < |slots| ==> |slots[i]| == NSLOT && slots[i][NDIRECT] != a
    ensures AllRead(disk[a := d], inodes, slots)
  {
    var disk' := disk[a := d];
    forall i | 0 <= i < |inodes|
      ensures Reads(disk', inodes[i], slots[i])
    {
      assert Reads(disk, inodes[i], slots[i]) && slots[i][NDIRECT] != a;
      forall j | 0 <= j < NINDIRECT
        ensures WordAt(disk', slots[i], j)
      {
        assert WordAt(disk, slots[i], j);
      }
    }
  }

  /** A new direct address in the inode. */
  lemma ReadsDirect(disk: seq<seq<Byte>>, inode: Inode, row: Row, k: nat, a: nat)
    requires Reads(disk, inode, row) && k < NDIRECT
    ensures Reads(disk, inode.(addrs := inode.addrs[k := a]), row[k := a])
  {
    var row' := row[k := a];
    forall j | 0 <= j < NINDIRECT
      ensures WordAt(disk, row', j)
    {
      assert WordAt(disk, row, j);
    }
  }

  /** A new, zeroed indirect block. */
  lemma ReadsIndirect(disk: seq<seq<Byte>>, inode: Inode, row: Row, a: nat)
    requires Reads(disk, inode, row) && row[NDIRECT] == 0
    requires a < |disk| && disk[a] == ZeroBlock()
    ensures Reads(disk, inode.(addrs := inode.addrs[NDIRECT := a]), row[NDIRECT := a])
  {
    var row' := row[NDIRECT := a];
    forall j | 0 <= j < NINDIRECT
      ensures WordAt(disk, row', j)
    {
      assert WordAt(disk, row, j);
      ZeroWords(j);
    }
  }

  /** A new address in the indirect block. */
  lemma ReadsWord(disk: seq<seq<Byte>>, inode: Inode, row: Row, j: nat, a: nat)
    requires Reads(disk, inode, row) && j < NINDIRECT && a < UINT
    requires 0 < row[NDIRECT] < |disk| && IsBlock(disk[row[NDIRECT]])
    ensures Reads(disk[row[NDIRECT] := StoreWord(disk[row[NDIRECT]], j, a)], inode, row[NDIRECT + 1 + j := a])
  {
    var ind := row[NDIRECT];
    var disk' := disk[ind := StoreWord(disk[ind], j, a)];
    var row' := row[NDIRECT + 1 + j := a];
    forall j' | 0 <= j' < NINDIRECT
      ensures WordAt(disk', row', j')
    {
      assert WordAt(disk, row, j');
      WordStored(disk[ind], j, a, j');
    }
  }

  // ----- the same steps, on everything that is kept

  /** A block outside the owner map is nobody's indirect block. */
  lemma NotIndirect(l: Layout, slots: seq<Row>, owner: Owner, a: nat)
    requires Inverse(l, slots, owner) && a != 0 && (a in owner ==> owner[a].k != NDIRECT)
    ensures forall i :: 0 <= i < |slots| ==> |slots[i]| == NSLOT && slots[i][NDIRECT] != a
  {
    forall i | 0 <= i < |slots|
      ensures |slots[i]| == NSLOT && slots[i][NDIRECT] != a
    {
      assert Recorded(owner, slots[i][NDIRECT], i, NDIRECT);
    }
  }

  lemma WriteBlocks(l: Layout, disk: seq<seq<Byte>>, a: nat, d: seq<Byte>)
    requires Blocks(l, disk) && a < l.size && IsBlock(d)
    ensures Blocks(l, disk[a := d])
  {}

  lemma OneInode(disk: seq<seq<Byte>>, inodes: seq<Inode>, slots: seq<Row>, i: nat, inode: Inode, row: Row)
    requires AllRead(disk, inodes, slots) && i < |inodes| && Reads(disk, inode, row)
    ensures AllRead(disk, inodes[i := inode], slots[i := row])
  {}

  /** File data written to an owned block. */
  lemma WriteData(l: Layout, bitmap: seq<seq<bv8>>, disk: seq<seq<Byte>>, inodes: seq<Inode>, slots: seq<Row>,
                  owner: Owner, a: nat, d: seq<Byte>)
    requires Core(l, bitmap, disk, inodes, slots, owner)
    requires 0 < a < l.size && (a in owner ==> owner[a].k != NDIRECT) && IsBlock(d)
    ensures Core(l, bitmap, disk[a := d], inodes, slots, owner)
  {
    NotIndirect(l, slots, owner, a);
    WriteElsewhere(disk, inodes, slots, a, d);
    WriteBlocks(l, disk, a, d);
  }

  lemma GiveDirect(l: Layout, bitmap: seq<seq<bv8>>, disk: seq<seq<Byte>>, inodes: seq<Inode>, slots: seq<Row>,
                   owner: Owner, i: nat, k: nat, b: nat)
    requires Core(l, bitmap, disk, inodes, slots, owner)
    requires i < |inodes| && k < NDIRECT && slots[i][k] == 0 && l.nmeta <= b < l.size && b !in owner
    ensures Core(l, SetBit(bitmap, b), disk[b := ZeroBlock()],
                 inodes[i := inodes[i].(addrs := inodes[i].addrs[k := b])], Put(slots, i, k, b), owner[b := Slot(i, k)])
  {
    WriteData(l, bitmap, disk, inodes, slots, owner, b, ZeroBlock());
    GiveInverse(l, slots, owner, i, k, b);
    GiveBits(l, bitmap, owner, b, Slot(i, k));
    var disk' := disk[b := ZeroBlock()];
    ReadsDirect(disk', inodes[i], slots[i], k, b);
    OneInode(disk', inodes, slots, i, inodes[i].(addrs := inodes[i].addrs[k := b]), slots[i][k := b]);
  }

  lemma GiveIndirect(l: Layout, bitmap: seq<seq<bv8>>, disk: seq<seq<Byte>>, inodes: seq<Inode>, slots: seq<Row>,
                     owner: Owner, i: nat, b: nat)
    requires Core(l, bitmap, disk, inodes, slots, owner)
    requires i < |inodes| && slots[i][NDIRECT] == 0 && l.nmeta <= b < l.size && b !in owner
    ensures Core(l, SetBit(bitmap, b), disk[b := ZeroBlock()],
                 inodes[i := inodes[i].(addrs := inodes[i].addrs[NDIRECT := b])], Put(slots, i, NDIRECT, b),
                 owner[b := Slot(i, NDIRECT)])
  {
    WriteData(l, bitmap, disk, inodes, slots, owner, b, ZeroBlock());
    GiveInverse(l, slots, owner, i, NDIRECT, b);
    GiveBits(l, bitmap, owner, b, Slot(i, NDIRECT));
    var disk' := disk[b := ZeroBlock()];
    ReadsIndirect(disk', inodes[i], slots[i], b);
    OneInode(disk', inodes, slots, i, inodes[i].(addrs := inodes[i].addrs[NDIRECT := b]), slots[i][NDIRECT := b]);
  }

  lemma GiveWord(l: Layout, bitmap: seq<seq<bv8>>, disk: seq<seq<Byte>>, inodes: seq<Inode>, slots: seq<Row>,
                 owner: Owner, i: nat, j: nat, b: nat)
    requires Core(l, bitmap, disk, inodes, slots, owner)
    requires i < |inodes| && j < NINDIRECT && slots[i][NDIRECT] != 0 && slots[i][NDIRECT + 1 + j] == 0
    requires l.nmeta <= b < l.size && b !in owner
    ensures
      var ind := slots[i][NDIRECT];
      && ind < l.size && ind != b && IsBlock(disk[ind])
      && Core(l, SetBit(bitmap, b), disk[b := ZeroBlock()][ind := StoreWord(disk[ind], j, b)],
              inodes, Put(slots, i, NDIRECT + 1 + j, b), owner[b := Slot(i, NDIRECT + 1 + j)])
  {
    hide Bits, WordAt;
    var ind, k := slots[i][NDIRECT], NDIRECT + 1 + j;
    IndirectHeld(l, slots, owner, i);
    WriteData(l, bitmap, disk, inodes, slots, owner, b, ZeroBlock());
    GiveInverse(l, slots, owner, i, k, b);
    GiveBits(l, bitmap, owner, b, Slot(i, k));
    var disk' := disk[b := ZeroBlock()];
    WriteBlocks(l, disk', ind, StoreWord(disk[ind], j, b));
    ReadsWord(disk', inodes[i], slots[i], j, b);
    OthersRead(l, disk', inodes, slots, owner, i, StoreWord(disk[ind], j, b), slots[i][k := b]);
  }

  lemma IndirectHeld(l: Layout, slots: seq<Row>, owner: Owner, i: nat)
    requires Inverse(l, slots, owner) && i < |slots|
    ensures
      var ind := slots[i][NDIRECT];
      ind != 0 ==> l.nmeta <= ind < l.size && ind in owner && owner[ind] == Slot(i, NDIRECT)
  {
    assert Recorded(owner, slots[i][NDIRECT], i, NDIRECT);
  }

  /** A change of inode i's indirect block is seen by no other inode. */
  lemma OthersRead(l: Layout, disk: seq<seq<Byte>>, inodes: seq<Inode>, slots: seq<Row>, owner: Owner, i: nat,
                   d: seq<Byte>, row: Row)
    requires AllRead(disk, inodes, slots) && Inverse(l, slots, owner) && i < |slots|
    requires 0 < slots[i][NDIRECT] < |disk| && Reads(disk[slots[i][NDIRECT] := d], inodes[i], row)
    ensures AllRead(disk[slots[i][NDIRECT] := d], inodes, slots[i := row])
  {
    var disk' := disk[slots[i][NDIRECT] := d];
    forall i' | 0 <= i' < |inodes| && i' != i
      ensures Reads(disk', inodes[i'], slots[i'])
    {
      assert Reads(disk, inodes[i'], slots[i']);
      HeldOnce(l, slots, owner, i, NDIRECT, i', NDIRECT);
      forall j | 0 <= j < NINDIRECT
        ensures WordAt(disk', slots[i'], j)
      {
        assert WordAt(disk, slots[i'], j);
      }
    }
  }
}
