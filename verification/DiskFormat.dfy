/** How the file system (fs.c, fs.h) lays bits and addresses out in disk blocks. */
module DiskFormat {
  import opened Common

  const BPB := BSIZE * 8
  const NINDIRECT := BSIZE / 4

  // ----- the free bitmap: one bit per block, BPB bits per bitmap block

  /** 1 << i in a byte. */
  function Mask(i: nat): bv8
    requires i < 8
  {
    match i
    case 0 => 1
    case 1 => 2
    case 2 => 4
    case 3 => 8
    case 4 => 16
    case 5 => 32
    case 6 => 64
    case _ => 128
  }

  /** Enough whole bitmap blocks for `size` bits. */
  predicate BitmapFor(bitmap: seq<seq<bv8>>, size: nat) {
    && size <= |bitmap| * BPB
    && (forall k :: 0 <= k < |bitmap| ==> |bitmap[k]| == BSIZE)
  }

  function ByteOf(bitmap: seq<seq<bv8>>, b: nat): bv8
    requires BitmapFor(bitmap, b + 1)
  {
    bitmap[b / BPB][b % BPB / 8]
  }

  predicate Marked(bitmap: seq<seq<bv8>>, b: nat)
    requires BitmapFor(bitmap, b + 1)
  {
    HasBit(ByteOf(bitmap, b), Mask(b % BPB % 8))
  }

  function WithByte(bitmap: seq<seq<bv8>>, b: nat, v: bv8): seq<seq<bv8>>
    requires BitmapFor(bitmap, b + 1)
  {
    bitmap[b / BPB := bitmap[b / BPB][b % BPB / 8 := v]]
  }

  /** data[bi/8] |= m. */
  function SetBit(bitmap: seq<seq<bv8>>, b: nat): seq<seq<bv8>>
    requires BitmapFor(bitmap, b + 1)
  {
    WithByte(bitmap, b, WithBit(ByteOf(bitmap, b), Mask(b % BPB % 8)))
  }

  /** data[bi/8] &= ~m. */
  function ClearBit(bitmap: seq<seq<bv8>>, b: nat): seq<seq<bv8>>
    requires BitmapFor(bitmap, b + 1)
  {
    WithByte(bitmap, b, WithoutBit(ByteOf(bitmap, b), Mask(b % BPB % 8)))
  }

  predicate Apart(m: bv8, n: bv8) {
    m & n == 0
  }

  predicate HasBit(x: bv8, m: bv8) {
    x & m != 0
  }

  function WithBit(x: bv8, m: bv8): bv8 {
    x | m
  }

  function WithoutBit(x: bv8, m: bv8): bv8 {
    x & !m
  }

  lemma MasksApart(i: nat, j: nat)
    requires i < 8 && j < 8
    ensures Mask(i) != 0 && (i != j ==> Apart(Mask(i), Mask(j)) && Mask(i) != Mask(j))
  {}

  lemma ByteBits(x: bv8, m: bv8, n: bv8)
    requires m != 0 && (m == n || Apart(m, n))
    ensures HasBit(WithBit(x, m), n) <==> m == n || HasBit(x, n)
    ensures HasBit(WithoutBit(x, m), n) <==> m != n && HasBit(x, n)
  {}

  lemma ByteUndo(x: bv8, m: bv8)
    ensures !HasBit(x, m) ==> WithoutBit(WithBit(x, m), m) == x
  {}

  /** Block, byte and bit position together name the block number. */
  lemma Position(b: nat, c: nat)
    ensures b / BPB == c / BPB && b % BPB / 8 == c % BPB / 8 && b % BPB % 8 == c % BPB % 8 ==> b == c
  {}

  lemma WithByteAt(bitmap: seq<seq<bv8>>, size: nat, b: nat, v: bv8, c: nat)
    requires BitmapFor(bitmap, size) && b < size && c < size
    ensures BitmapFor(WithByte(bitmap, b, v), size)
    ensures ByteOf(WithByte(bitmap, b, v), c) ==
            if b / BPB == c / BPB && b % BPB / 8 == c % BPB / 8 then v else ByteOf(bitmap, c)
    ensures b / BPB == c / BPB && b % BPB / 8 == c % BPB / 8 ==> ByteOf(bitmap, b) == ByteOf(bitmap, c)
  {}

  /** Setting a bit marks that block and no other. */
  lemma SetMarks(bitmap: seq<seq<bv8>>, size: nat, b: nat, c: nat)
    requires BitmapFor(bitmap, size) && b < size && c < size
    ensures BitmapFor(SetBit(bitmap, b), size)
    ensures Marked(SetBit(bitmap, b), c) <==> c == b || Marked(bitmap, c)
  {
    hide WithByte, ByteOf, Mask, Apart, HasBit, WithBit, WithoutBit;
    WithByteAt(bitmap, size, b, WithBit(ByteOf(bitmap, b), Mask(b % BPB % 8)), c);
    Position(b, c);
    MasksApart(b % BPB % 8, c % BPB % 8);
    ByteBits(ByteOf(bitmap, b), Mask(b % BPB % 8), Mask(c % BPB % 8));
  }

  lemma ClearMarks(bitmap: seq<seq<bv8>>, size: nat, b: nat, c: nat)
    requires BitmapFor(bitmap, size) && b < size && c < size
    ensures BitmapFor(ClearBit(bitmap, b), size)
    ensures Marked(ClearBit(bitmap, b), c) <==> c != b && Marked(bitmap, c)
  {
    hide WithByte, ByteOf, Mask, Apart, HasBit, WithBit, WithoutBit;
    WithByteAt(bitmap, size, b, WithoutBit(ByteOf(bitmap, b), Mask(b % BPB % 8)), c);
    Position(b, c);
    MasksApart(b % BPB % 8, c % BPB % 8);
    ByteBits(ByteOf(bitmap, b), Mask(b % BPB % 8), Mask(c % BPB % 8));
  }

  /** Freeing a block just allocated restores the bitmap bit for bit. */
  lemma ClearUndoesSet(bitmap: seq<seq<bv8>>, b: nat)
    requires BitmapFor(bitmap, b + 1) && !Marked(bitmap, b)
    ensures BitmapFor(SetBit(bitmap, b), b + 1) && ClearBit(SetBit(bitmap, b), b) == bitmap
  {
    ByteUndo(ByteOf(bitmap, b), Mask(b % BPB % 8));
    var set1 := SetBit(bitmap, b);
    assert ByteOf(set1, b) == WithBit(ByteOf(bitmap, b), Mask(b % BPB % 8));
    WithByteTwice(bitmap, b, ByteOf(set1, b), ByteOf(bitmap, b));
  }

  lemma WithByteTwice(bitmap: seq<seq<bv8>>, b: nat, v: bv8, w: bv8)
    requires BitmapFor(bitmap, b + 1)
    ensures BitmapFor(WithByte(bitmap, b, v), b + 1)
    ensures WithByte(WithByte(bitmap, b, v), b, w) == WithByte(bitmap, b, w)
    ensures WithByte(bitmap, b, ByteOf(bitmap, b)) == bitmap
  {
    var k, y := b / BPB, b % BPB / 8;
    assert bitmap[k][y := v][y := w] == bitmap[k][y := w];
    assert bitmap[k][y := bitmap[k][y]] == bitmap[k];
  }

  // ----- block addresses in an indirect block: four bytes each, low byte first

  predicate IsBlock(d: seq<Byte>) {
    |d| == BSIZE
  }

  function ZeroBlock(): (z: seq<Byte>)
    ensures IsBlock(z)
  {
    seq(BSIZE, _ => 0)
  }

  function Word(d: seq<Byte>, j: nat): nat
    requires IsBlock(d) && j < NINDIRECT
  {
    d[4*j] as int + 0x100 * d[4*j+1] as int + 0x1_0000 * d[4*j+2] as int + 0x100_0000 * d[4*j+3] as int
  }

  function StoreWord(d: seq<Byte>, j: nat, v: nat): (d': seq<Byte>)
    requires IsBlock(d) && j < NINDIRECT && v < UINT
    ensures IsBlock(d')
  {
    d[4*j := v % 0x100][4*j+1 := v / 0x100 % 0x100][4*j+2 := v / 0x1_0000 % 0x100][4*j+3 := v / 0x100_0000]
  }

  lemma FourBytes(v: nat)
    requires v < UINT
    ensures v / 0x100_0000 < 0x100
    ensures v % 0x100 + 0x100 * (v / 0x100 % 0x100) + 0x1_0000 * (v / 0x1_0000 % 0x100) + 0x100_0000 * (v / 0x100_0000)
         == v
  {
    assert v / 0x1_0000 == v / 0x100 / 0x100;
    assert v / 0x100_0000 == v / 0x1_0000 / 0x100;
  }

  /** A stored address reads back, and the other addresses in the block stay. */
  lemma WordStored(d: seq<Byte>, j: nat, v: nat, k: nat)
    requires IsBlock(d) && j < NINDIRECT && k < NINDIRECT && v < UINT
    ensures Word(StoreWord(d, j, v), k) == if k == j then v else Word(d, k)
  {
    FourBytes(v);
    if k == j {
      var d' := StoreWord(d, j, v);
      assert d'[4*j] == v % 0x100 && d'[4*j+1] == v / 0x100 % 0x100;
      assert d'[4*j+2] == v / 0x1_0000 % 0x100 && d'[4*j+3] == v / 0x100_0000;
    }
  }

  lemma ZeroWords(j: nat)
    requires j < NINDIRECT
    ensures Word(ZeroBlock(), j) == 0
  {}
}
