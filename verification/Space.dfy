/** When a write has the blocks it needs (balloc and bmap in fs.c): the slots that it must fill
    against the blocks that are free. */
module Space {
  import opened Common
  import opened DiskFormat
  import opened Ownership
  import opened FileData
  import opened Sets

  /** A write of n bytes at off goes through slot k of its inode. */
  predicate Covers(k: nat, off: nat, n: nat) {
    && n > 0
    && (if k == NDIRECT then TouchedEnd(off, n) > NDIRECT
        else off / BSIZE <= (if k < NDIRECT then k else k - 1) < TouchedEnd(off, n))
  }

  /** The slots that it must fill. */
  function Missing(row: Row, off: nat, n: nat): set<nat> {
    set k: nat | k < |row| && k < NSLOT && row[k] == 0 && Covers(k, off, n)
  }

  function FreeBlocks(bitmap: seq<seq<bv8>>, size: nat): set<nat> {
    set b: nat | b < size && BitmapFor(bitmap, size) && !Marked(bitmap, b)
  }

  /** Only slots that the write must fill have been filled. */
  predicate Grown(slots0: seq<Row>, slots: seq<Row>, i: nat, off: nat, n: nat) {
    && Rows(slots0) && Rows(slots) && i < |slots| == |slots0|
    && (forall j :: 0 <= j < |slots| && j != i ==> slots[j] == slots0[j])
    && (forall k :: 0 <= k < NSLOT ==> slots[i][k] == slots0[i][k] || k in Missing(slots0[i], off, n))
  }

  /** bmap ran out of blocks for block bn; it may have got the indirect block. */
  predicate Stuck(slots0: seq<Row>, slots: seq<Row>, i: nat, bn: nat) {
    && Rows(slots0) && Rows(slots) && i < |slots| == |slots0| && bn < MAXFILE
    && (forall j :: 0 <= j < |slots| && j != i ==> slots[j] == slots0[j])
    && (forall k :: 0 <= k < NSLOT ==> slots[i][k] == slots0[i][k] || (k == NDIRECT <= bn && slots0[i][k] == 0))
    && slots[i][SlotOf(bn)] == 0
  }

  lemma GrownStart(slots: seq<Row>, i: nat, off: nat, n: nat)
    requires Rows(slots) && i < |slots|
    ensures Grown(slots, slots, i, off, n)
  {}

  lemma GrownMapped(slots0: seq<Row>, s: Snap, t: Snap, owner: Owner, i: nat, off: nat, n: nat, bn: nat)
    requires Grown(slots0, s.slots, i, off, n) && Mapped(s, t, owner, i, bn) && Rows(t.slots)
    requires off / BSIZE <= bn < TouchedEnd(off, n) && n > 0
    ensures Grown(slots0, t.slots, i, off, n)
  {
    assert Covers(SlotOf(bn), off, n) && (bn >= NDIRECT ==> Covers(NDIRECT, off, n));
    forall k | 0 <= k < NSLOT
      ensures t.slots[i][k] == slots0[i][k] || k in Missing(slots0[i], off, n)
    {
      assert s.slots[i][k] == slots0[i][k] || k in Missing(slots0[i], off, n);
    }
  }

  lemma GrownStuck(slots0: seq<Row>, slots1: seq<Row>, slots: seq<Row>, i: nat, off: nat, n: nat, bn: nat)
    requires Grown(slots0, slots1, i, off, n) && Stuck(slots1, slots, i, bn)
    requires off / BSIZE <= bn < TouchedEnd(off, n) && n > 0
    ensures Grown(slots0, slots, i, off, n) && SlotOf(bn) in Missing(slots0[i], off, n)
  {
    assert Covers(SlotOf(bn), off, n) && (bn >= NDIRECT ==> Covers(NDIRECT, off, n));
    forall k | 0 <= k < NSLOT
      ensures slots[i][k] == slots0[i][k] || k in Missing(slots0[i], off, n)
    {
      assert slots1[i][k] == slots0[i][k] || k in Missing(slots0[i], off, n);
    }
  }

  /** A slot that was filled holds a block that was free. */
  lemma FilledWasFree(l: Layout, bitmap0: seq<seq<bv8>>, slots0: seq<Row>, owner0: Owner, slots: seq<Row>, owner: Owner,
                      i: nat, off: nat, n: nat, k: nat)
    requires LayoutOk(l) && Bits(l, bitmap0, owner0) && Inverse(l, slots0, owner0) && Inverse(l, slots, owner)
    requires Grown(slots0, slots, i, off, n) && k in Missing(slots0[i], off, n) && slots[i][k] != 0
    ensures slots[i][k] in FreeBlocks(bitmap0, l.size)
  {
    var a := slots[i][k];
    assert Recorded(owner, a, i, k);
    assert Held(l, slots, a, owner[a]);
    assert a in owner0 ==> Held(l, slots0, a, owner0[a]);
  }

  /** Every slot filled: there were enough free blocks. */
  lemma EnoughBlocks(l: Layout, bitmap0: seq<seq<bv8>>, slots0: seq<Row>, owner0: Owner, slots: seq<Row>, owner: Owner,
                     i: nat, off: nat, n: nat)
    requires LayoutOk(l) && Bits(l, bitmap0, owner0) && Inverse(l, slots0, owner0) && Inverse(l, slots, owner)
    requires Grown(slots0, slots, i, off, n) && forall k :: k in Missing(slots0[i], off, n) ==> slots[i][k] != 0
    ensures |Missing(slots0[i], off, n)| <= |FreeBlocks(bitmap0, l.size)|
  {
    hide Bits, Grown, FreeBlocks;
    GrownRow(slots0, slots, i, off, n);
    var miss := Missing(slots0[i], off, n);
    var m := map k | k in miss :: slots[i][k];
    assert m.Keys == miss;
    forall k | k in m
      ensures m[k] in FreeBlocks(bitmap0, l.size)
    {
      FilledWasFree(l, bitmap0, slots0, owner0, slots, owner, i, off, n, k);
    }
    forall k, k' | k in m && k' in m && m[k] == m[k']
      ensures k == k'
    {
      HeldOnce(l, slots, owner, i, k, i, k');
    }
    InjectionSize(m, FreeBlocks(bitmap0, l.size));
  }

  lemma GrownRow(slots0: seq<Row>, slots: seq<Row>, i: nat, off: nat, n: nat)
    requires Grown(slots0, slots, i, off, n)
    ensures i < |slots| == |slots0| && |slots[i]| == |slots0[i]| == NSLOT
  {}

  /** A block that was free and is owned now is in a slot that was filled. */
  lemma FreeWasFilled(l: Layout, bitmap0: seq<seq<bv8>>, slots0: seq<Row>, owner0: Owner, slots: seq<Row>, owner: Owner,
                      i: nat, off: nat, n: nat, b: nat)
    requires LayoutOk(l) && Bits(l, bitmap0, owner0) && Inverse(l, slots0, owner0) && Inverse(l, slots, owner)
    requires Grown(slots0, slots, i, off, n) && b in FreeBlocks(bitmap0, l.size) && b in owner
    ensures owner[b].inum == i && owner[b].k in Missing(slots0[i], off, n) && slots[i][owner[b].k] == b
  {
    var s := owner[b];
    assert Held(l, slots, b, s);
    assert Recorded(owner0, slots0[s.inum][s.k], s.inum, s.k);
  }

  /** No block left and slot k still empty: there were too few. */
  lemma TooFewBlocks(l: Layout, bitmap0: seq<seq<bv8>>, slots0: seq<Row>, owner0: Owner, bitmap: seq<seq<bv8>>,
                     slots: seq<Row>, owner: Owner, i: nat, off: nat, n: nat, k: nat)
    requires LayoutOk(l) && Bits(l, bitmap0, owner0) && Inverse(l, slots0, owner0) && Bits(l, bitmap, owner)
    requires Inverse(l, slots, owner)
    requires Grown(slots0, slots, i, off, n) && (forall b :: 0 <= b < l.size ==> Marked(bitmap, b))
    requires k in Missing(slots0[i], off, n) && slots[i][k] == 0
    ensures |FreeBlocks(bitmap0, l.size)| < |Missing(slots0[i], off, n)|
  {
    forall b | b in FreeBlocks(bitmap0, l.size)
      ensures b in owner && b != 0
    {
      assert Marked(bitmap, b);
    }
    hide Bits, Grown, FreeBlocks;
    GrownRow(slots0, slots, i, off, n);
    var free, miss := FreeBlocks(bitmap0, l.size), Missing(slots0[i], off, n);
    var m := map b | b in free :: owner[b].k;
    assert m.Keys == free;
    forall b | b in m
      ensures m[b] in miss - {k} && slots[i][m[b]] == b
    {
      FreeWasFilled(l, bitmap0, slots0, owner0, slots, owner, i, off, n, b);
    }
    InjectionSize(m, miss - {k});
  }

  // ----- how many blocks a write needs

  /** The blocks of a file of n bytes, with the indirect block. */
  function BlocksFor(n: nat): nat {
    if Ceil(n) <= NDIRECT then Ceil(n) else Ceil(n) + 1
  }

  /** The numbers from lo up to hi. */
  function Interval(lo: nat, hi: nat): (r: set<nat>)
    requires lo <= hi
    ensures |r| == hi - lo && forall k: nat :: k in r <==> lo <= k < hi
    decreases hi
  {
    if lo == hi then {} else Interval(lo, hi - 1) + {hi - 1}
  }

  /** Slots are filled in order. */
  lemma SlotFilled(row: Row, size: nat, k: nat)
    requires HoleFree(row, size) && k < NSLOT && size <= MAXBYTES
    ensures row[k] == 0 <==> BlocksFor(size) <= k
  {
    var bn := if k < NDIRECT then k else k - 1;
    assert k != NDIRECT ==> SlotOf(bn) == k && bn < MAXFILE;
  }

  lemma CoversAfter(size: nat, off: nat, n: nat, k: nat)
    requires off <= size && BlocksFor(size) <= k
    ensures Covers(k, off, n) <==> k < BlocksFor(off + n)
  {}

  /** A write at or before the end of a hole-free file fills the slots by which the file grows. */
  lemma MissingCount(row: Row, size: nat, off: nat, n: nat)
    requires HoleFree(row, size) && off <= size <= MAXBYTES && off + n <= MAXBYTES
    ensures |Missing(row, off, n)| == BlocksFor(Max(size, off + n)) - BlocksFor(size)
  {
    hide HoleFree, Covers;
    var lo, hi := BlocksFor(size), BlocksFor(Max(size, off + n));
    assert |row| == NSLOT by { HoleFreeRow(row, size); }
    assert lo <= hi <= NSLOT;
    forall k: nat
      ensures k in Missing(row, off, n) <==> k in Interval(lo, hi)
    {
      if k < NSLOT {
        SlotFilled(row, size, k);
        if lo <= k {
          CoversAfter(size, off, n, k);
        }
      }
    }
    assert Missing(row, off, n) == Interval(lo, hi);
  }

  lemma HoleFreeRow(row: Row, size: nat)
    requires HoleFree(row, size)
    ensures |row| == NSLOT
  {}

  // ----- the capacity of the disk

  /** The blocks of files of the given sizes. */
  function Total(sizes: seq<nat>): nat {
    if sizes == [] then 0 else Total(sizes[..|sizes|-1]) + BlocksFor(sizes[|sizes|-1])
  }

  lemma {:induction false} TotalUpdate(sizes: seq<nat>, i: nat, n: nat)
    requires i < |sizes|
    ensures Total(sizes[i := n]) == Total(sizes) - BlocksFor(sizes[i]) + BlocksFor(n)
    decreases |sizes|
  {
    hide BlocksFor;
    var k := |sizes| - 1;
    if i < k {
      TotalUpdate(sizes[..k], i, n);
      assert sizes[i := n][..k] == sizes[..k][i := n];
    } else {
      assert sizes[i := n][..k] == sizes[..k];
    }
  }

  function Column(i: nat, c: nat): (r: set<Slot>)
    ensures |r| == c && forall s :: s in r <==> s.inum == i && s.k < c
  {
    if c == 0 then {} else Column(i, c - 1) + {Slot(i, c - 1)}
  }

  /** The slots that hole-free files fill. */
  function FilledSlots(sizes: seq<nat>): (r: set<Slot>)
    ensures |r| == Total(sizes) && forall s :: s in r <==> s.inum < |sizes| && s.k < BlocksFor(sizes[s.inum])
  {
    if sizes == [] then {}
    else
      var n := |sizes| - 1;
      var rest, last := FilledSlots(sizes[..n]), Column(n, BlocksFor(sizes[n]));
      assert rest !! last;
      rest + last
  }

  /** Files of these sizes, without holes. */
  predicate Sized(slots: seq<Row>, sizes: seq<nat>) {
    && Rows(slots) && |slots| == |sizes|
    && (forall i :: 0 <= i < |sizes| ==> sizes[i] <= MAXBYTES && HoleFree(slots[i], sizes[i]))
  }

  lemma SlotSized(slots: seq<Row>, sizes: seq<nat>, s: Slot)
    requires Sized(slots, sizes) && s.inum < |slots| && s.k < NSLOT
    ensures slots[s.inum][s.k] != 0 <==> s in FilledSlots(sizes)
  {
    SlotFilled(slots[s.inum], sizes[s.inum], s.k);
  }

  lemma FilledBound(slots: seq<Row>, sizes: seq<nat>, s: Slot)
    requires Sized(slots, sizes) && s in FilledSlots(sizes)
    ensures s.inum < |slots| && s.k < NSLOT
  {}

  /** As many blocks are owned as the files need. */
  lemma OwnedCount(l: Layout, slots: seq<Row>, owner: Owner, sizes: seq<nat>)
    requires LayoutOk(l) && Inverse(l, slots, owner) && Sized(slots, sizes)
    ensures |owner.Keys| == Total(sizes)
  {
    var filled := FilledSlots(sizes);
    hide Sized, FilledSlots, BlocksFor;
    forall a | a in owner
      ensures owner[a] in filled && slots[owner[a].inum][owner[a].k] == a
    {
      assert Held(l, slots, a, owner[a]);
      SlotSized(slots, sizes, owner[a]);
    }
    InjectionSize(owner, filled);
    forall s | s in filled
      ensures s.inum < |slots| && s.k < NSLOT && slots[s.inum][s.k] in owner && owner[slots[s.inum][s.k]] == s
    {
      FilledBound(slots, sizes, s);
      SlotSized(slots, sizes, s);
      assert Recorded(owner, slots[s.inum][s.k], s.inum, s.k);
    }
    var m := map s | s in filled :: slots[s.inum][s.k];
    assert m.Keys == filled;
    InjectionSize(m, owner.Keys);
  }

  /** Blocks are conserved: the free ones and those of the files are all but the metadata. */
  lemma BlocksConserved(l: Layout, bitmap: seq<seq<bv8>>, slots: seq<Row>, owner: Owner, sizes: seq<nat>)
    requires LayoutOk(l) && Bits(l, bitmap, owner) && Inverse(l, slots, owner) && Sized(slots, sizes)
    ensures |FreeBlocks(bitmap, l.size)| + Total(sizes) == l.size - l.nmeta
  {
    OwnedCount(l, slots, owner, sizes);
    var all := Interval(l.nmeta, l.size);
    forall a | a in owner
      ensures a in all
    {
      assert Held(l, slots, a, owner[a]);
    }
    hide Inverse, Sized, Total;
    assert FreeBlocks(bitmap, l.size) == all - owner.Keys;
  }
}
