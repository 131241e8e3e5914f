/** The sector as xv6 sees it: 512 bytes, overlaid with little-endian words
    (log header, indirect blocks, inodes) and with single bits (free map).
    The lemmas say that writing through one overlay cell changes that cell and no other. */
module Bytes {

  const BSIZE := 512
  const WORDS := BSIZE / 4

  type byte = x: int | 0 <= x < 256
  type uint32 = x: int | 0 <= x < 0x1_0000_0000
  type Block = b: seq<byte> | |b| == BSIZE witness seq(BSIZE, i => 0)

  const ZERO: Block := Fill(0)

  /** memset */
  function Fill(x: byte): (b: Block) {
    seq(BSIZE, i => x)
  }

  /** Word i of a sector, read the way x86 reads a `uint`. */
  function Word(b: Block, i: nat): (w: uint32)
    requires i < WORDS
  {
    var b0: int, b1: int, b2: int, b3: int := b[4 * i], b[4 * i + 1], b[4 * i + 2], b[4 * i + 3];
    b0 + 0x100 * b1 + 0x1_0000 * b2 + 0x100_0000 * b3
  }

  function SetWord(b: Block, i: nat, w: uint32): (r: Block)
    requires i < WORDS
  {
    b[4 * i := w % 0x100][4 * i + 1 := w / 0x100 % 0x100]
     [4 * i + 2 := w / 0x1_0000 % 0x100][4 * i + 3 := w / 0x100_0000 % 0x100]
  }

  lemma {:induction false} WordSet(b: Block, i: nat, w: uint32, j: nat)
    requires i < WORDS && j < WORDS
    ensures Word(SetWord(b, i, w), j) == if j == i then w else Word(b, j)
  {
    if i == j {
      WordDigits(w);
    }
  }

  lemma {:induction false} WordDigits(w: uint32)
    ensures w == w % 0x100 + 0x100 * (w / 0x100 % 0x100) + 0x1_0000 * (w / 0x1_0000 % 0x100)
                 + 0x100_0000 * (w / 0x100_0000 % 0x100)
  {
    assert w / 0x1_0000 == w / 0x100 / 0x100;
    assert w / 0x100_0000 == w / 0x1_0000 / 0x100;
  }

  lemma {:induction false} WordZero(i: nat)
    requires i < WORDS
    ensures Word(ZERO, i) == 0
  {
  }

  /** `1 << k` */
  function Mask(k: nat): (m: nat)
    ensures m >= 1
  {
    if k == 0 then 1 else 2 * Mask(k - 1)
  }

  /** `(x & (1 << k)) != 0` */
  predicate ByteBit(x: nat, k: nat)
  {
    if k == 0 then x % 2 == 1 else ByteBit(x / 2, k - 1)
  }

  lemma {:induction false} ByteBitFlip(x: nat, k: nat, j: nat)
    ensures !ByteBit(x, k) ==> (ByteBit(x + Mask(k), j) <==> j == k || ByteBit(x, j))
    ensures ByteBit(x, k) ==> Mask(k) <= x && (ByteBit(x - Mask(k), j) <==> j != k && ByteBit(x, j))
    decreases k
  {
    if k > 0 {
      ByteBitFlip(x / 2, k - 1, if j == 0 then 0 else j - 1);
    }
  }

  lemma {:induction false} ByteBitRoom(x: nat, k: nat, n: nat)
    requires x < Mask(n) && k < n && !ByteBit(x, k)
    ensures x + Mask(k) < Mask(n)
  {
    assert Mask(n) == 2 * Mask(n - 1);
    if k > 0 {
      assert Mask(k) == 2 * Mask(k - 1);
      ByteBitRoom(x / 2, k - 1, n - 1);
    }
  }

  const BITS := 8 * BSIZE

  /** Bit i of a free-map sector: `data[i / 8] & (1 << (i % 8))`. */
  predicate Bit(b: Block, i: nat)
    requires i < BITS
  {
    ByteBit(b[i / 8], i % 8)
  }

  /** `x |= 1 << k`, stored back into a byte. */
  function ByteOn(x: byte, k: nat): (r: byte) {
    if ByteBit(x, k) then x else (x as int + Mask(k)) % 0x100
  }

  /** `x &= ~(1 << k)` */
  function ByteOff(x: byte, k: nat): (r: byte) {
    if ByteBit(x, k) then (x as int - Mask(k)) % 0x100 else x
  }

  lemma {:induction false} ByteOnOff(x: byte, k: nat, j: nat)
    requires k < 8
    ensures ByteBit(ByteOn(x, k), j) <==> j == k || ByteBit(x, j)
    ensures ByteBit(ByteOff(x, k), j) <==> j != k && ByteBit(x, j)
  {
    assert Mask(8) == 256;
    hide ByteBit, Mask;
    ByteBitFlip(x, k, j);
    if !ByteBit(x, k) {
      ByteBitRoom(x, k, 8);
    }
  }

  /** `data[i / 8] |= m` */
  function SetBit(b: Block, i: nat): (r: Block)
    requires i < BITS
  {
    b[i / 8 := ByteOn(b[i / 8], i % 8)]
  }

  /** `data[i / 8] &= ~m` */
  function ClearBit(b: Block, i: nat): (r: Block)
    requires i < BITS
  {
    b[i / 8 := ByteOff(b[i / 8], i % 8)]
  }

  lemma {:induction false} BitSet(b: Block, i: nat, j: nat)
    requires i < BITS && j < BITS
    ensures Bit(SetBit(b, i), j) <==> j == i || Bit(b, j)
    ensures Bit(ClearBit(b, i), j) <==> j != i && Bit(b, j)
  {
    hide ByteBit, ByteOn, ByteOff;
    assert i == 8 * (i / 8) + i % 8 && j == 8 * (j / 8) + j % 8;
    if i / 8 == j / 8 {
      ByteOnOff(b[i / 8], i % 8, j % 8);
    }
  }
}
