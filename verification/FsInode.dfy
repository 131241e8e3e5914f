/** struct dinode as sixteen words of an inode block. */
module FsInode {
  import opened Bytes
  import opened FsLayout

  const INODEWORDS := 16

  /** Consecutive words stored from word `at` on. */
  function PutWords(b: Block, at: nat, ws: seq<uint32>): (r: Block)
    requires at + |ws| <= WORDS
  {
    if ws == [] then b
    else SetWord(PutWords(b, at, ws[..|ws| - 1]), at + |ws| - 1, ws[|ws| - 1])
  }

  lemma {:induction false} PutWordsAt(b: Block, at: nat, ws: seq<uint32>, j: nat)
    requires at + |ws| <= WORDS && j < WORDS
    ensures Word(PutWords(b, at, ws), j) == if at <= j < at + |ws| then ws[j - at] else Word(b, j)
  {
    hide Word, SetWord;
    if ws != [] {
      PutWordsAt(b, at, ws[..|ws| - 1], j);
      WordSet(PutWords(b, at, ws[..|ws| - 1]), at + |ws| - 1, ws[|ws| - 1], j);
    }
  }

  ghost predicate Storable(di: Dinode) {
    |di.addrs| == NDIRECT + 1
  }

  function ToWords(di: Dinode): (ws: seq<uint32>)
    requires Storable(di)
    ensures |ws| == INODEWORDS
  {
    var typ: int, major: int, minor: int, nlink: int := di.typ, di.major, di.minor, di.nlink;
    [typ + 0x1_0000 * major, minor + 0x1_0000 * nlink, di.size] + di.addrs
  }

  /** Inode n of an inode block (n == inum % IPB). */
  function Load(b: Block, n: nat): (di: Dinode)
    requires n < IPB
    ensures Storable(di)
  {
    var at := INODEWORDS * n;
    var w0: int, w1: int := Word(b, at), Word(b, at + 1);
    Dinode(w0 % 0x1_0000, w0 / 0x1_0000, w1 % 0x1_0000, w1 / 0x1_0000, Word(b, at + 2),
           seq<uint32>(NDIRECT + 1, k requires 0 <= k < NDIRECT + 1 => Word(b, at + 3 + k)))
  }

  function Store(b: Block, n: nat, di: Dinode): (r: Block)
    requires n < IPB && Storable(di)
  {
    PutWords(b, INODEWORDS * n, ToWords(di))
  }

  lemma {:induction false} HalfWords(lo: uint16, hi: uint16)
    ensures var w: int := lo + 0x1_0000 * hi; w % 0x1_0000 == lo && w / 0x1_0000 == hi && 0 <= w < 0x1_0000_0000
  {
  }

  /** An inode reads back as stored, and its neighbours in the block are untouched. */
  lemma {:induction false} LoadStore(b: Block, n: nat, di: Dinode, m: nat)
    requires n < IPB && m < IPB && Storable(di)
    ensures Load(Store(b, n, di), m) == if m == n then di else Load(b, m)
  {
    hide Word, SetWord, PutWords;
    var b', ws := Store(b, n, di), ToWords(di);
    forall j | INODEWORDS * m <= j < INODEWORDS * m + INODEWORDS
      ensures Word(b', j) == if m == n then ws[j - INODEWORDS * n] else Word(b, j)
    {
      PutWordsAt(b, INODEWORDS * n, ws, j);
    }
    if m == n {
      HalfWords(di.typ, di.major);
      HalfWords(di.minor, di.nlink);
      assert Load(b', m).addrs == di.addrs;
    } else {
      assert Load(b', m).addrs == Load(b, m).addrs;
    }
  }

  /** The inode the disk holds for number i. */
  function DiskInode(sb: Super, blocks: Blocks, i: nat): (di: Dinode)
    requires sb.IBlock(i) < |blocks|
  {
    Load(blocks[sb.IBlock(i)], i % IPB)
  }

  ghost predicate OnDisk(sb: Super, blocks: Blocks, tab: seq<Dinode>) {
    && sb.Valid() && |blocks| == sb.size && |tab| == sb.ninodes
    && forall i | 0 <= i < |tab| :: DiskInodeIs(sb, blocks, i, tab[i])
  }

  ghost predicate DiskInodeIs(sb: Super, blocks: Blocks, i: nat, di: Dinode)
    requires sb.Valid() && |blocks| == sb.size && i < sb.ninodes
  {
    IBlockBelow(sb, i);
    DiskInode(sb, blocks, i) == di
  }

  lemma {:induction false} IBlockBelow(sb: Super, i: nat)
    requires sb.Valid() && i < sb.ninodes
    ensures sb.inodestart <= sb.IBlock(i) < sb.bmapstart < sb.datastart <= sb.size
  {
    assert i / IPB <= sb.ninodes / IPB;
  }

  /** Storing tab[i] makes the disk agree on inode i and changes no other. */
  lemma {:induction false} InodeStored(sb: Super, blocks: Blocks, tab: seq<Dinode>, i: nat)
    requires sb.Valid() && |blocks| == sb.size && |tab| == sb.ninodes && i < |tab| && Storable(tab[i])
    requires forall k | 0 <= k < |tab| && k != i :: DiskInodeIs(sb, blocks, k, tab[k])
    requires sb.IBlock(i) < |blocks|
    ensures OnDisk(sb, blocks[sb.IBlock(i) := Store(blocks[sb.IBlock(i)], i % IPB, tab[i])], tab)
  {
    hide Load, Store;
    var c := sb.IBlock(i);
    var blocks' := blocks[c := Store(blocks[c], i % IPB, tab[i])];
    forall k | 0 <= k < |tab| ensures DiskInodeIs(sb, blocks', k, tab[k]) {
      IBlockBelow(sb, k);
      LoadStore(blocks[c], i % IPB, tab[i], k % IPB);
      SameInodeSlot(i, k);
      if k != i {
        assert DiskInodeIs(sb, blocks, k, tab[k]);
      }
    }
  }

  lemma {:induction false} SameInodeSlot(i: nat, k: nat)
    ensures i / IPB == k / IPB && i % IPB == k % IPB ==> i == k
  {
  }
}
