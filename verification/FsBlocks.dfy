/** Disk blocks as the file system reads them: bytes, little-endian words and allocation bits. */
module FsBlocks {
  import opened Params

  const NDIRECT := 12
  const NINDIRECT := BLOCK_WORDS
  const MAXFILE := NDIRECT + NINDIRECT
  /** Allocation bits in one bitmap block, and inodes in one inode block. */
  const BPB := 8 * BSIZE
  const IPB := 16

  type Byte = x: int | 0 <= x < 256
  type Block = b: seq<Byte> | |b| == BSIZE witness seq(BSIZE, _ => 0)

  const ZEROS: Block := seq(BSIZE, _ => 0)

  // ----- 32-bit words -----

  const WORD_LIMIT := 0x1_0000_0000

  function FromBytes(b0: int, b1: int, b2: int, b3: int): (w: int) {
    b0 + 0x100 * b1 + 0x1_0000 * b2 + 0x100_0000 * b3
  }

  lemma FromBytesOf(w: nat)
    requires w < WORD_LIMIT
    ensures FromBytes(w % 0x100, w / 0x100 % 0x100, w / 0x1_0000 % 0x100, w / 0x100_0000) == w
  {
    var a, b := w / 0x100, w / 0x1_0000;
    assert w == 0x100 * a + w % 0x100;
    assert b == a / 0x100 && a == 0x100 * b + a % 0x100;
    assert w / 0x100_0000 == b / 0x100 && b == 0x100 * (b / 0x100) + b % 0x100;
  }

  lemma BytesOfFrom(b0: Byte, b1: Byte, b2: Byte, b3: Byte)
    ensures var w := FromBytes(b0, b1, b2, b3);
            w % 0x100 == b0 && w / 0x100 % 0x100 == b1 && w / 0x1_0000 % 0x100 == b2 && w / 0x100_0000 == b3
  {
    var c := b2 + 0x100 * b3;
    var a := b1 + 0x100 * c;
    var w := b0 + 0x100 * a;
    assert w / 0x100 == a && a / 0x100 == c && c / 0x100 == b3;
    assert w == FromBytes(b0, b1, b2, b3);
    assert w / 0x1_0000 == a / 0x100 && w / 0x100_0000 == c / 0x100;
  }

  /** The j-th 32-bit little-endian word of a block. */
  function Word(b: Block, j: nat): (w: nat)
    requires j < NINDIRECT
    ensures w < WORD_LIMIT
  {
    FromBytes(b[4 * j], b[4 * j + 1], b[4 * j + 2], b[4 * j + 3])
  }

  /** The bytes of a word stand in the block from the lowest to the highest. */
  lemma WordBytes(b: Block, j: nat)
    requires j < NINDIRECT
    ensures Word(b, j) % 0x100 == b[4 * j] && Word(b, j) / 0x100 % 0x100 == b[4 * j + 1]
    ensures Word(b, j) / 0x1_0000 % 0x100 == b[4 * j + 2] && Word(b, j) / 0x100_0000 == b[4 * j + 3]
  {
    BytesOfFrom(b[4 * j], b[4 * j + 1], b[4 * j + 2], b[4 * j + 3]);
  }

  /** The block `b` with `w` stored as its j-th word. */
  function SetWord(b: Block, j: nat, w: nat): (r: Block)
    requires j < NINDIRECT && w < WORD_LIMIT
    ensures r[4 * j] == w % 0x100 && r[4 * j + 1] == w / 0x100 % 0x100
    ensures r[4 * j + 2] == w / 0x1_0000 % 0x100 && r[4 * j + 3] == w / 0x100_0000
    ensures forall k :: 0 <= k < BSIZE && !(4 * j <= k < 4 * j + 4) ==> r[k] == b[k]
  {
    b[4 * j := w % 0x100][4 * j + 1 := w / 0x100 % 0x100]
     [4 * j + 2 := w / 0x1_0000 % 0x100][4 * j + 3 := w / 0x100_0000]
  }

  /** A stored word is read back, and its neighbours keep their values. */
  lemma WordAfterSet(b: Block, j: nat, w: nat, k: nat)
    requires j < NINDIRECT && w < WORD_LIMIT && k < NINDIRECT
    ensures Word(SetWord(b, j, w), k) == if k == j then w else Word(b, k)
  {
    FromBytesOf(w);
  }

  // ----- The allocation bitmap -----

  /** The bitmap blocks, each as its BPB bits; a set bit marks a block in use. */
  type Bitmap = seq<seq<bool>>

  /** The bitmap has a bit for every one of `size` blocks. */
  predicate GoodBitmap(bm: Bitmap, size: nat) {
    size <= |bm| * BPB && forall i :: 0 <= i < |bm| ==> |bm[i]| == BPB
  }

  lemma BlockIndex(bm: Bitmap, size: nat, b: nat)
    requires GoodBitmap(bm, size) && b < size
    ensures b / BPB < |bm|
  {
  }

  predicate BitSet(bm: Bitmap, size: nat, b: nat)
    requires GoodBitmap(bm, size) && b < size
  {
    BlockIndex(bm, size, b);
    bm[b / BPB][b % BPB]
  }

  /** The bitmap with the bit of `b` changed to `bit`. */
  function SetBit(bm: Bitmap, size: nat, b: nat, bit: bool): (r: Bitmap)
    requires GoodBitmap(bm, size) && b < size
    ensures GoodBitmap(r, size)
    ensures forall c: nat :: c < size ==> BitSet(r, size, c) == if c == b then bit else BitSet(bm, size, c)
  {
    BlockIndex(bm, size, b);
    bm[b / BPB := bm[b / BPB][b % BPB := bit]]
  }

  /** The blocks marked used. */
  function UsedSet(bm: Bitmap, size: nat): (r: set<nat>)
    requires GoodBitmap(bm, size)
    ensures forall b: nat :: b in r <==> b < size && BitSet(bm, size, b)
  {
    set b: nat | b < size && BitSet(bm, size, b)
  }
}
