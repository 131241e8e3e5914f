/** The on-disk file system of fs.h as seen through the log: free map, inode table, direct and
    indirect block lists.  A slot is one place an inode can name a block: slots 0..11 are the
    direct addresses, slot 12 the indirect block, slots 13..140 the entries inside it. */
module FsLayout {
  import opened Bytes

  const NDIRECT := 12
  const NINDIRECT := BSIZE / 4
  const MAXFILE := NDIRECT + NINDIRECT
  const ROOT := NDIRECT
  const NSLOTS := NDIRECT + 1 + NINDIRECT
  const IPB := 8
  const BPB := BITS

  type uint16 = x: int | 0 <= x < 0x1_0000
  type Blocks = seq<Block>

  datatype Super = Super(size: nat, ninodes: nat, inodestart: nat, bmapstart: nat, datastart: nat) {
    /** inodes, then the free map, then data, inside the device. */
    ghost predicate Valid() {
      && inodestart >= 2
      && inodestart + ninodes / IPB + 1 <= bmapstart
      && bmapstart + size / BPB + 1 <= datastart <= size <= 0x8000_0000
    }

    ghost predicate Data(a: int) {
      datastart <= a < size
    }

    function BBlock(b: nat): (r: nat) {
      b / BPB + bmapstart
    }

    function IBlock(i: nat): (r: nat) {
      i / IPB + inodestart
    }
  }

  /** struct dinode; the in-memory inode caches the same fields. */
  datatype Dinode = Dinode(typ: uint16, major: uint16, minor: uint16, nlink: uint16, size: uint32, addrs: seq<uint32>)

  // ---------- slots ----------

  ghost predicate InodeOK(sb: Super, di: Dinode) {
    && |di.addrs| == NDIRECT + 1 && di.size <= MAXFILE * BSIZE
    && (di.addrs[ROOT] == 0 || sb.Data(di.addrs[ROOT]))
  }

  /** The block a slot names, 0 if none. */
  function SlotAddr(blocks: Blocks, di: Dinode, j: nat): (a: nat)
    requires |di.addrs| == NDIRECT + 1 && di.addrs[ROOT] < |blocks| && j < NSLOTS
  {
    if j <= ROOT then di.addrs[j]
    else if di.addrs[ROOT] == 0 then 0
    else Word(blocks[di.addrs[ROOT]], j - ROOT - 1)
  }

  /** The slot of a file's nth block. */
  function SlotOf(bn: nat): (j: nat)
    ensures j != ROOT
    ensures bn < MAXFILE ==> j < NSLOTS
  {
    if bn < NDIRECT then bn else bn + 1
  }

  type Owner = map<nat, (nat, nat)>

  ghost predicate TableShape(sb: Super, blocks: Blocks, tab: seq<Dinode>) {
    && sb.Valid() && |blocks| == sb.size && |tab| == sb.ninodes
    && forall i | 0 <= i < |tab| :: InodeOK(sb, tab[i])
  }

  /** Every block a slot names is owned, by that slot and no other. */
  ghost predicate SlotsOwned(sb: Super, blocks: Blocks, tab: seq<Dinode>, owner: Owner)
    requires TableShape(sb, blocks, tab)
  {
    forall i, j | 0 <= i < |tab| && 0 <= j < NSLOTS ::
      SlotAddr(blocks, tab[i], j) != 0 ==>
        SlotAddr(blocks, tab[i], j) in owner && owner[SlotAddr(blocks, tab[i], j)] == (i, j)
  }

  /** Every owned block is a data block named by its owning slot. */
  ghost predicate OwnersSlot(sb: Super, blocks: Blocks, tab: seq<Dinode>, owner: Owner)
    requires TableShape(sb, blocks, tab)
  {
    forall a | a in owner ::
      && sb.Data(a) && owner[a].0 < |tab| && owner[a].1 < NSLOTS
      && SlotAddr(blocks, tab[owner[a].0], owner[a].1) == a
  }

  /** Every block below a file's size is mapped. */
  ghost predicate Mapped(blocks: Blocks, di: Dinode)
    requires |di.addrs| == NDIRECT + 1 && di.addrs[ROOT] < |blocks| && di.size <= MAXFILE * BSIZE
  {
    forall bn: nat | bn * BSIZE < di.size :: SlotAddr(blocks, di, SlotOf(bn)) != 0
  }

  ghost predicate TableOK(sb: Super, blocks: Blocks, tab: seq<Dinode>, owner: Owner) {
    && TableShape(sb, blocks, tab)
    && SlotsOwned(sb, blocks, tab, owner) && OwnersSlot(sb, blocks, tab, owner)
    && forall i | 0 <= i < |tab| :: Mapped(blocks, tab[i])
  }

  /** Slot j of inode i names a; every other slot names what it named before. */
  ghost predicate SlotsPlus(sb: Super, blocks: Blocks, tab: seq<Dinode>, blocks': Blocks, tab': seq<Dinode>,
                            i: nat, j: nat, a: nat)
    requires TableShape(sb, blocks, tab) && TableShape(sb, blocks', tab')
  {
    forall i', j' | 0 <= i' < |tab| && 0 <= j' < NSLOTS ::
      SlotAddr(blocks', tab'[i'], j') == if i' == i && j' == j then a else SlotAddr(blocks, tab[i'], j')
  }

  /** Every slot names what it named before. */
  ghost predicate SlotsKept(sb: Super, blocks: Blocks, tab: seq<Dinode>, blocks': Blocks, tab': seq<Dinode>)
    requires TableShape(sb, blocks, tab) && TableShape(sb, blocks', tab')
  {
    forall i', j' | 0 <= i' < |tab| && 0 <= j' < NSLOTS ::
      SlotAddr(blocks', tab'[i'], j') == SlotAddr(blocks, tab[i'], j')
  }

  // ---------- how single writes affect the table ----------

  /** Writing a block that is nobody's indirect block changes no slot. */
  lemma {:induction false} WriteElsewhere(sb: Super, blocks: Blocks, tab: seq<Dinode>, owner: Owner, a: nat, x: Block)
    requires TableOK(sb, blocks, tab, owner) && a < sb.size
    requires a !in owner || owner[a].1 != ROOT
    ensures TableOK(sb, blocks[a := x], tab, owner)
    ensures SlotsKept(sb, blocks, tab, blocks[a := x], tab)
  {
    hide Word;
    var blocks' := blocks[a := x];
    forall i, j | 0 <= i < |tab| && 0 <= j < NSLOTS
      ensures SlotAddr(blocks', tab[i], j) == SlotAddr(blocks, tab[i], j)
    {
      RootOwned(sb, blocks, tab, owner, i);
    }
  }

  lemma {:induction false} RootOwned(sb: Super, blocks: Blocks, tab: seq<Dinode>, owner: Owner, i: nat)
    requires TableOK(sb, blocks, tab, owner) && i < |tab|
    ensures var r := tab[i].addrs[ROOT]; r != 0 ==> r in owner && owner[r] == (i, ROOT)
  {
    hide Word;
    assert SlotAddr(blocks, tab[i], ROOT) == tab[i].addrs[ROOT];
  }

  /** Naming a fresh zeroed block in an empty direct slot, or as a new indirect block. */
  lemma {:induction false} AttachDirect(sb: Super, blocks: Blocks, tab: seq<Dinode>, owner: Owner, i: nat, j: nat,
        a: uint32)
    requires TableOK(sb, blocks, tab, owner) && i < |tab| && j <= ROOT
    requires tab[i].addrs[j] == 0 && sb.Data(a) && a !in owner && blocks[a] == ZERO
    ensures TableOK(sb, blocks, tab[i := tab[i].(addrs := tab[i].addrs[j := a])], owner[a := (i, j)])
    ensures SlotsPlus(sb, blocks, tab, blocks, tab[i := tab[i].(addrs := tab[i].addrs[j := a])], i, j, a)
  {
    hide Word;
    var di := tab[i].(addrs := tab[i].addrs[j := a]);
    var tab' := tab[i := di];
    forall j' | 0 <= j' < NSLOTS
      ensures SlotAddr(blocks, di, j') == if j' == j then a else SlotAddr(blocks, tab[i], j')
    {
      if j == ROOT && j' > ROOT {
        WordZero(j' - ROOT - 1);
      }
    }
    AttachedTable(sb, blocks, tab, blocks, tab', owner, i, j, a);
  }

  /** Naming a fresh block in an empty entry of the indirect block. */
  lemma {:induction false} AttachEntry(sb: Super, blocks: Blocks, tab: seq<Dinode>, owner: Owner, i: nat, j: nat,
                                       a: uint32)
    requires TableOK(sb, blocks, tab, owner) && i < |tab| && ROOT < j < NSLOTS
    requires tab[i].addrs[ROOT] != 0 && SlotAddr(blocks, tab[i], j) == 0 && sb.Data(a) && a !in owner
    ensures var r := tab[i].addrs[ROOT];
            var blocks' := blocks[r := SetWord(blocks[r], j - ROOT - 1, a)];
            && TableOK(sb, blocks', tab, owner[a := (i, j)])
            && SlotsPlus(sb, blocks, tab, blocks', tab, i, j, a)
  {
    hide Word, SetWord;
    var r := tab[i].addrs[ROOT];
    var blocks' := blocks[r := SetWord(blocks[r], j - ROOT - 1, a)];
    forall i', j' | 0 <= i' < |tab| && 0 <= j' < NSLOTS
      ensures SlotAddr(blocks', tab[i'], j') == if i' == i && j' == j then a else SlotAddr(blocks, tab[i'], j')
    {
      RootOwned(sb, blocks, tab, owner, i);
      RootOwned(sb, blocks, tab, owner, i');
      if i' == i && j' > ROOT {
        WordSet(blocks[r], j - ROOT - 1, a, j' - ROOT - 1);
      }
    }
    AttachedTable(sb, blocks, tab, blocks', tab, owner, i, j, a);
  }

  lemma {:induction false} AttachedTable(sb: Super, blocks: Blocks, tab: seq<Dinode>, blocks': Blocks,
        tab': seq<Dinode>,
                                         owner: Owner, i: nat, j: nat, a: uint32)
    requires TableOK(sb, blocks, tab, owner) && TableShape(sb, blocks', tab') && i < |tab| && j < NSLOTS
    requires forall i' | 0 <= i' < |tab| :: tab'[i'].size == tab[i'].size
    requires SlotAddr(blocks, tab[i], j) == 0 && sb.Data(a) && a !in owner
    requires SlotsPlus(sb, blocks, tab, blocks', tab', i, j, a)
    ensures TableOK(sb, blocks', tab', owner[a := (i, j)])
  {
    hide SlotAddr;
    AttachedSlots(sb, blocks, tab, blocks', tab', owner, i, j, a);
    AttachedOwners(sb, blocks, tab, blocks', tab', owner, i, j, a);
    forall i' | 0 <= i' < |tab| ensures Mapped(blocks', tab'[i']) {
      assert Mapped(blocks, tab[i']);
    }
  }

  lemma {:induction false} AttachedSlots(sb: Super, blocks: Blocks, tab: seq<Dinode>, blocks': Blocks,
        tab': seq<Dinode>,
                                         owner: Owner, i: nat, j: nat, a: uint32)
    requires TableShape(sb, blocks, tab) && TableShape(sb, blocks', tab') && SlotsOwned(sb, blocks, tab, owner)
    requires i < |tab| && j < NSLOTS && a !in owner && SlotsPlus(sb, blocks, tab, blocks', tab', i, j, a)
    ensures SlotsOwned(sb, blocks', tab', owner[a := (i, j)])
  {
    hide SlotAddr, InodeOK;
  }

  lemma {:induction false} AttachedOwners(sb: Super, blocks: Blocks, tab: seq<Dinode>, blocks': Blocks,
        tab': seq<Dinode>,
                                          owner: Owner, i: nat, j: nat, a: uint32)
    requires TableShape(sb, blocks, tab) && TableShape(sb, blocks', tab') && OwnersSlot(sb, blocks, tab, owner)
    requires i < |tab| && j < NSLOTS && SlotAddr(blocks, tab[i], j) == 0 && sb.Data(a)
    requires SlotsPlus(sb, blocks, tab, blocks', tab', i, j, a)
    ensures OwnersSlot(sb, blocks', tab', owner[a := (i, j)])
  {
    hide SlotAddr;
    var owner' := owner[a := (i, j)];
    forall c | c in owner'
      ensures && sb.Data(c) && owner'[c].0 < |tab'| && owner'[c].1 < NSLOTS
              && SlotAddr(blocks', tab'[owner'[c].0], owner'[c].1) == c
    {
    }
  }

  // ---------- the free map ----------

  ghost predicate InUse(sb: Super, blocks: Blocks, b: nat)
    requires sb.Valid() && |blocks| == sb.size && b < sb.size
  {
    Bit(blocks[sb.BBlock(b)], b % BPB)
  }

  /** The set bits are the metadata blocks and the blocks of `live`. */
  ghost predicate BitmapOK(sb: Super, blocks: Blocks, live: set<nat>) {
    && sb.Valid() && |blocks| == sb.size
    && (forall b | b in live :: sb.Data(b))
    && forall b | 0 <= b < sb.size :: InUse(sb, blocks, b) <==> b < sb.datastart || b in live
  }

  /** Flipping a's bit in its free-map block x changes a's bit and no other. */
  lemma {:induction false} FlipAt(sb: Super, blocks: Blocks, a: nat, x: Block, b: nat)
    requires sb.Valid() && |blocks| == sb.size && a < sb.size && b < sb.size && sb.BBlock(a) < sb.size
    requires b % BPB != a % BPB ==> Bit(x, b % BPB) == Bit(blocks[sb.BBlock(a)], b % BPB)
    ensures b != a ==> (InUse(sb, blocks[sb.BBlock(a) := x], b) <==> InUse(sb, blocks, b))
    ensures b == a ==> (InUse(sb, blocks[sb.BBlock(a) := x], b) <==> Bit(x, a % BPB))
  {
    hide Bit;
    SameBit(a, b);
  }

  lemma {:induction false} MarkUsed(sb: Super, blocks: Blocks, live: set<nat>, a: nat)
    requires BitmapOK(sb, blocks, live) && sb.Data(a)
    ensures BitmapOK(sb, blocks[sb.BBlock(a) := SetBit(blocks[sb.BBlock(a)], a % BPB)], live + {a})
  {
    hide Bit, SetBit, InUse;
    var x := SetBit(blocks[sb.BBlock(a)], a % BPB);
    var blocks' := blocks[sb.BBlock(a) := x];
    forall b | 0 <= b < sb.size ensures InUse(sb, blocks', b) <==> InUse(sb, blocks, b) || b == a {
      BitSet(blocks[sb.BBlock(a)], a % BPB, b % BPB);
      FlipAt(sb, blocks, a, x, b);
    }
  }

  lemma {:induction false} MarkFree(sb: Super, blocks: Blocks, live: set<nat>, a: nat)
    requires BitmapOK(sb, blocks, live) && sb.Data(a)
    ensures BitmapOK(sb, blocks[sb.BBlock(a) := ClearBit(blocks[sb.BBlock(a)], a % BPB)], live - {a})
  {
    hide Bit, ClearBit, InUse;
    var x := ClearBit(blocks[sb.BBlock(a)], a % BPB);
    var blocks' := blocks[sb.BBlock(a) := x];
    forall b | 0 <= b < sb.size ensures InUse(sb, blocks', b) <==> InUse(sb, blocks, b) && b != a {
      BitSet(blocks[sb.BBlock(a)], a % BPB, b % BPB);
      FlipAt(sb, blocks, a, x, b);
    }
  }

  lemma {:induction false} SameBit(a: nat, b: nat)
    ensures a / BPB == b / BPB && a % BPB == b % BPB ==> a == b
  {
  }

  lemma {:induction false} BitmapKept(sb: Super, blocks: Blocks, live: set<nat>, c: nat, x: Block)
    requires BitmapOK(sb, blocks, live) && c < sb.size
    requires !(sb.bmapstart <= c <= sb.bmapstart + sb.size / BPB)
    ensures BitmapOK(sb, blocks[c := x], live)
  {
    hide Bit;
    var blocks' := blocks[c := x];
    forall b | 0 <= b < sb.size ensures InUse(sb, blocks', b) <==> InUse(sb, blocks, b) {
      assert b / BPB <= sb.size / BPB;
    }
  }

  ghost predicate Names(blocks: Blocks, tab: seq<Dinode>, i: nat, j: nat, b: nat) {
    && i < |tab| && j < NSLOTS && |tab[i].addrs| == NDIRECT + 1 && tab[i].addrs[ROOT] < |blocks|
    && SlotAddr(blocks, tab[i], j) == b
  }

  /** The free map is exact: a bit is set just for metadata and for blocks some slot names, and
      no block is named by two slots, so files share no data or indirect block. */
  lemma {:induction false} OwnershipExact(sb: Super, blocks: Blocks, tab: seq<Dinode>, owner: Owner, b: nat)
    requires TableOK(sb, blocks, tab, owner) && BitmapOK(sb, blocks, owner.Keys) && 0 < b < sb.size
    ensures InUse(sb, blocks, b) <==> b < sb.datastart || exists i, j :: Names(blocks, tab, i, j, b)
    ensures forall i, j, i', j' | Names(blocks, tab, i, j, b) && Names(blocks, tab, i', j', b) :: i == i' && j == j'
  {
    hide SlotAddr, Mapped, Bit;
    if b in owner {
      assert Names(blocks, tab, owner[b].0, owner[b].1, b);
    }
  }

  // ---------- contents ----------

  /** Byte k of a file through the block that holds it; 0 where nothing is mapped, as in a
      block that was just allocated. */
  function FileByte(blocks: Blocks, di: Dinode, k: nat): (x: byte)
    requires |di.addrs| == NDIRECT + 1 && di.addrs[ROOT] < |blocks| && k < MAXFILE * BSIZE
  {
    if 0 < SlotAddr(blocks, di, SlotOf(k / BSIZE)) < |blocks|
    then blocks[SlotAddr(blocks, di, SlotOf(k / BSIZE))][k % BSIZE] else 0
  }

  /** The file as one flat byte sequence. */
  function Content(blocks: Blocks, di: Dinode): (s: seq<byte>)
    requires |di.addrs| == NDIRECT + 1 && di.addrs[ROOT] < |blocks| && di.size <= MAXFILE * BSIZE
    ensures |s| == di.size
  {
    seq(di.size, k requires 0 <= k < di.size => FileByte(blocks, di, k))
  }

  /** Same byte everywhere in two versions of one file. */
  ghost predicate SameBytes(blocks: Blocks, di: Dinode, blocks': Blocks, di': Dinode)
    requires |di.addrs| == NDIRECT + 1 && di.addrs[ROOT] < |blocks|
    requires |di'.addrs| == NDIRECT + 1 && di'.addrs[ROOT] < |blocks'|
  {
    forall k | 0 <= k < MAXFILE * BSIZE :: FileByte(blocks', di', k) == FileByte(blocks, di, k)
  }

  /** Same bytes in every file. */
  ghost predicate SameFiles(sb: Super, blocks: Blocks, tab: seq<Dinode>, blocks': Blocks, tab': seq<Dinode>)
    requires TableShape(sb, blocks, tab) && TableShape(sb, blocks', tab')
  {
    forall i | 0 <= i < |tab| :: SameBytes(blocks, tab[i], blocks', tab'[i])
  }

  /** Writing a block no slot names changes no file. */
  lemma {:induction false} UnownedWrite(sb: Super, blocks: Blocks, tab: seq<Dinode>, owner: Owner, c: nat, x: Block)
    requires TableOK(sb, blocks, tab, owner) && c < sb.size && c !in owner
    ensures TableOK(sb, blocks[c := x], tab, owner)
    ensures SameFiles(sb, blocks, tab, blocks[c := x], tab) && SlotsKept(sb, blocks, tab, blocks[c := x], tab)
  {
    hide Word, SlotAddr;
    var blocks' := blocks[c := x];
    WriteElsewhere(sb, blocks, tab, owner, c, x);
    forall i, k | 0 <= i < |tab| && 0 <= k < MAXFILE * BSIZE
      ensures FileByte(blocks', tab[i], k) == FileByte(blocks, tab[i], k)
    {
      var j := SlotOf(k / BSIZE);
      assert SlotAddr(blocks', tab[i], j) == SlotAddr(blocks, tab[i], j);
    }
  }

  /** Naming a zeroed block in an empty slot changes no byte of any file. */
  lemma {:induction false} AttachKeepsBytes(sb: Super, blocks: Blocks, tab: seq<Dinode>, blocks': Blocks,
        tab': seq<Dinode>,
                                            owner: Owner, i: nat, j: nat, a: uint32)
    requires TableOK(sb, blocks, tab, owner) && TableShape(sb, blocks', tab') && i < |tab| && j < NSLOTS
    requires SlotAddr(blocks, tab[i], j) == 0 && sb.Data(a) && blocks'[a] == ZERO
    requires forall c | c in owner && owner[c].1 != ROOT :: blocks'[c] == blocks[c]
    requires SlotsPlus(sb, blocks, tab, blocks', tab', i, j, a)
    ensures SameFiles(sb, blocks, tab, blocks', tab')
  {
    hide Word, SlotAddr;
    forall i', k | 0 <= i' < |tab| && 0 <= k < MAXFILE * BSIZE
      ensures FileByte(blocks', tab'[i'], k) == FileByte(blocks, tab[i'], k)
    {
      var j' := SlotOf(k / BSIZE);
      var old' := SlotAddr(blocks, tab[i'], j');
      assert SlotAddr(blocks', tab'[i'], j') == if i' == i && j' == j then a else old';
      if old' != 0 {
        assert owner[old'] == (i', j');
      }
    }
  }

  /** Writing a file's nth block changes exactly the bytes of that block of that file. */
  lemma {:induction false} DataWrite(sb: Super, blocks: Blocks, tab: seq<Dinode>, owner: Owner, i: nat, bn: nat,
                                     x: Block)
    requires TableOK(sb, blocks, tab, owner) && i < |tab| && bn < MAXFILE
    requires SlotAddr(blocks, tab[i], SlotOf(bn)) != 0
    ensures var a := SlotAddr(blocks, tab[i], SlotOf(bn));
            && sb.Data(a)
            && TableOK(sb, blocks[a := x], tab, owner)
            && SlotsKept(sb, blocks, tab, blocks[a := x], tab)
            && (forall i' | 0 <= i' < |tab| && i' != i :: SameBytes(blocks, tab[i'], blocks[a := x], tab[i']))
            && forall k | 0 <= k < MAXFILE * BSIZE ::
                 FileByte(blocks[a := x], tab[i], k) == if k / BSIZE == bn then x[k % BSIZE] else FileByte(blocks, tab[i], k)
  {
    hide Word, SlotAddr;
    var a := SlotAddr(blocks, tab[i], SlotOf(bn));
    assert a in owner && owner[a] == (i, SlotOf(bn));
    var blocks' := blocks[a := x];
    WriteElsewhere(sb, blocks, tab, owner, a, x);
    forall i', k | 0 <= i' < |tab| && 0 <= k < MAXFILE * BSIZE
      ensures FileByte(blocks', tab[i'], k) ==
              if i' == i && k / BSIZE == bn then x[k % BSIZE] else FileByte(blocks, tab[i'], k)
    {
      var j' := SlotOf(k / BSIZE);
      assert SlotAddr(blocks', tab[i'], j') == SlotAddr(blocks, tab[i'], j');
    }
  }
}
