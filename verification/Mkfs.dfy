/** mkfs.c: the layout of a device and its image before any file is written. */
module Mkfs {
  import opened Bytes
  import opened FsLayout
  import opened FsGrowth
  import opened FsInode
  import opened FsBlocks
  import opened FsTrunc
  import opened FsIalloc
  import opened FileWrite

  const NLOG := 30

  /** `[ boot block | sb block | log | inode blocks | free bit map | data blocks ]` */
  function Layout(size: nat, ninodes: nat): (sb: Super) {
    var inodestart := 2 + NLOG;
    var bmapstart := inodestart + ninodes / IPB + 1;
    Super(size, ninodes, inodestart, bmapstart, bmapstart + size / BPB + 1)
  }

  ghost function Empty(image: Blocks, ninodes: nat): (x: State) {
    State(image, seq(ninodes, i requires 0 <= i < ninodes => Fresh(0)), map[])
  }

  /** The free map with the first `used` bits set. */
  method Balloc(used: nat) returns (buf: Block)
    requires used < BPB
    ensures forall j | 0 <= j < BPB :: Bit(buf, j) <==> j < used
  {
    hide Bit, SetBit;
    buf := ZERO;
    forall j | 0 <= j < BPB
      ensures !Bit(ZERO, j)
    {
      ZeroBit(j);
    }
    for i := 0 to used
      invariant forall j | 0 <= j < BPB :: Bit(buf, j) <==> j < i
    {
      forall j | 0 <= j < BPB
        ensures Bit(SetBit(buf, i), j) <==> j == i || Bit(buf, j)
      {
        BitSet(buf, i, j);
      }
      buf := SetBit(buf, i);
    }
  }

  lemma {:induction false} ZeroBit(j: nat)
    requires j < BPB
    ensures !Bit(ZERO, j)
  {
    ZeroBits(j % 8);
  }

  lemma {:induction false} ZeroBits(k: nat)
    ensures !ByteBit(0, k)
  {
    if k > 0 {
      ZeroBits(k - 1);
    }
  }

  /** Any device whose metadata fits, in front of some data and in one block of the free map, becomes
      a consistent file system of free inodes. */
  method Format(size: nat, ninodes: nat) returns (image: Blocks)
    requires Layout(size, ninodes).datastart <= size <= 0x8000_0000 && Layout(size, ninodes).datastart < BPB
    ensures Consistent(Layout(size, ninodes), Empty(image, ninodes))
  {
    hide Bit;
    var sb := Layout(size, ninodes);
    image := seq(size, i requires 0 <= i < size => ZERO);
    var buf := Balloc(sb.datastart);
    image := image[sb.bmapstart := buf];
    FormatTable(sb, image, Empty(image, ninodes).tab);
    FormatBitmap(sb, image);
    FormatInodes(sb, image, Empty(image, ninodes).tab);
  }

  lemma {:induction false} FormatTable(sb: Super, image: Blocks, tab: seq<Dinode>)
    requires sb.Valid() && |image| == sb.size && |tab| == sb.ninodes
    requires forall i | 0 <= i < |tab| :: tab[i] == Fresh(0)
    ensures TableOK(sb, image, tab, map[])
  {
    forall i, j | 0 <= i < |tab| && 0 <= j < NSLOTS
      ensures SlotAddr(image, tab[i], j) == 0
    {
    }
  }

  lemma {:induction false} FormatBitmap(sb: Super, image: Blocks)
    requires sb.Valid() && |image| == sb.size && sb.datastart < BPB
    requires forall j | 0 <= j < BPB :: Bit(image[sb.bmapstart], j) <==> j < sb.datastart
    requires forall c | sb.bmapstart < c < sb.datastart :: image[c] == ZERO
    ensures BitmapOK(sb, image, {})
  {
    hide Bit, InUse;
    forall b | 0 <= b < sb.size
      ensures InUse(sb, image, b) <==> b < sb.datastart
    {
      FormatBit(sb, image, b);
    }
  }

  lemma {:induction false} FormatBit(sb: Super, image: Blocks, b: nat)
    requires sb.Valid() && |image| == sb.size && sb.datastart < BPB && b < sb.size
    requires Bit(image[sb.bmapstart], b % BPB) <==> b % BPB < sb.datastart
    requires forall c | sb.bmapstart < c < sb.datastart :: image[c] == ZERO
    ensures InUse(sb, image, b) <==> b < sb.datastart
  {
    hide Bit;
    BBlockBelow(sb, b);
    if b >= BPB {
      ZeroBit(b % BPB);
    }
  }

  lemma {:induction false} FormatInodes(sb: Super, image: Blocks, tab: seq<Dinode>)
    requires sb.Valid() && |image| == sb.size && |tab| == sb.ninodes
    requires forall i | 0 <= i < |tab| :: tab[i] == Fresh(0)
    requires forall c | sb.inodestart <= c < sb.bmapstart :: image[c] == ZERO
    ensures OnDisk(sb, image, tab)
  {
    hide Load;
    forall i | 0 <= i < |tab|
      ensures DiskInodeIs(sb, image, i, tab[i])
    {
      IBlockBelow(sb, i);
      LoadZero(i % IPB);
    }
  }

  lemma {:induction false} LoadZero(n: nat)
    requires n < IPB
    ensures Load(ZERO, n) == Fresh(0)
  {
    forall j | 0 <= j < WORDS
      ensures Word(ZERO, j) == 0
    {
    }
    hide Word;
    assert Load(ZERO, n).addrs == NOADDRS;
  }
}
