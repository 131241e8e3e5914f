/** iupdate and itrunc of fs.c. */
module FsTrunc {
  import opened Bytes
  import opened FsLayout
  import opened FsInode
  import opened FsBlocks
  import opened FsMap

  /** Copies the in-memory inode to its place on the disk. */
  method Iupdate(fs: FileSys, ip: Inode)
    requires fs.Ok() && fs.Locked(ip)
    requires forall k | 0 <= k < |fs.tab| && k != ip.inum :: DiskInodeIs(fs.sb, fs.blocks, k, fs.tab[k])
    modifies fs`blocks, fs`logged, fs`puts
    ensures fs.Settled() && SameFiles(fs.sb, old(fs.blocks), fs.tab, fs.blocks, fs.tab)
    ensures SlotsKept(fs.sb, old(fs.blocks), fs.tab, fs.blocks, fs.tab)
    ensures fs.logged == old(fs.logged) + {fs.sb.IBlock(ip.inum)}
    ensures forall c | 0 <= c < |fs.blocks| && c != fs.sb.IBlock(ip.inum) :: fs.blocks[c] == old(fs.blocks)[c]
  {
    hide BitmapOK, SlotsOwned, Mapped, SlotAddr, FileByte, Store, Recorded;
    IBlockBelow(fs.sb, ip.inum);
    var c := fs.sb.IBlock(ip.inum);
    var bp := fs.blocks[c];
    InodeStored(fs.sb, fs.blocks, fs.tab, ip.inum);
    UnownedWrite(fs.sb, fs.blocks, fs.tab, fs.owner, c, Store(bp, ip.inum % IPB, ip.AsDinode()));
    BitmapKept(fs.sb, fs.blocks, fs.live, c, Store(bp, ip.inum % IPB, ip.AsDinode()));
    fs.LogWrite(c, Store(bp, ip.inum % IPB, ip.AsDinode()));
  }

  /** The blocks inode di names in slots lo..hi. */
  ghost function Named(blocks: Blocks, di: Dinode, lo: nat, hi: nat): (r: set<nat>)
    requires |di.addrs| == NDIRECT + 1 && di.addrs[ROOT] < |blocks| && hi <= NSLOTS
  {
    set j | lo <= j < hi && SlotAddr(blocks, di, j) != 0 :: SlotAddr(blocks, di, j)
  }

  lemma {:induction false} NamedNext(blocks: Blocks, di: Dinode, lo: nat, hi: nat)
    requires |di.addrs| == NDIRECT + 1 && di.addrs[ROOT] < |blocks| && lo <= hi < NSLOTS
    ensures Named(blocks, di, lo, hi + 1) ==
            Named(blocks, di, lo, hi) + if SlotAddr(blocks, di, hi) == 0 then {} else {SlotAddr(blocks, di, hi)}
  {
    hide SlotAddr;
  }

  /** A block named by slot j is owned and not among those named by other slots of the inode. */
  lemma {:induction false} NamedApart(sb: Super, blocks: Blocks, tab: seq<Dinode>, owner: Owner, i: nat, lo: nat,
                                      hi: nat, j: nat)
    requires TableOK(sb, blocks, tab, owner) && i < |tab| && hi <= NSLOTS && j < NSLOTS && !(lo <= j < hi)
    requires SlotAddr(blocks, tab[i], j) != 0
    ensures SlotAddr(blocks, tab[i], j) in owner && sb.Data(SlotAddr(blocks, tab[i], j))
    ensures SlotAddr(blocks, tab[i], j) !in Named(blocks, tab[i], lo, hi)
  {
    hide SlotAddr, Mapped;
  }

  /** The blocks owned by inode i, given up. */
  ghost function Disown(owner: Owner, i: nat): (r: Owner) {
    map a | a in owner && owner[a].0 != i :: owner[a]
  }

  lemma {:induction false} DisownKeys(sb: Super, blocks: Blocks, tab: seq<Dinode>, owner: Owner, i: nat)
    requires TableOK(sb, blocks, tab, owner) && i < |tab|
    ensures Disown(owner, i).Keys == owner.Keys - Named(blocks, tab[i], 0, NSLOTS)
  {
    forall a | a in owner ensures a in Named(blocks, tab[i], 0, NSLOTS) <==> owner[a].0 == i {
      OwnedIsNamed(sb, blocks, tab, owner, i, a);
    }
    hide SlotAddr, TableOK, Named;
  }

  lemma {:induction false} OwnedIsNamed(sb: Super, blocks: Blocks, tab: seq<Dinode>, owner: Owner, i: nat, a: nat)
    requires TableOK(sb, blocks, tab, owner) && i < |tab| && a in owner
    ensures a in Named(blocks, tab[i], 0, NSLOTS) <==> owner[a].0 == i
  {
    hide SlotAddr, Mapped;
    var j := owner[a].1;
    assert SlotAddr(blocks, tab[owner[a].0], j) == a;
  }

  const NOADDRS: seq<uint32> := [0, 0, 0, 0, 0, 0, 0, 0, 0, 0, 0, 0, 0]

  ghost function Emptied(di: Dinode): (r: Dinode) {
    di.(size := 0, addrs := NOADDRS)
  }

  /** Emptying inode i leaves a sound table in which the other inodes keep their blocks. */
  lemma {:induction false} EmptyTable(sb: Super, blocks: Blocks, tab: seq<Dinode>, owner: Owner, i: nat)
    requires TableOK(sb, blocks, tab, owner) && i < |tab|
    ensures TableOK(sb, blocks, tab[i := Emptied(tab[i])], Disown(owner, i))
  {
    var tab', owner' := tab[i := Emptied(tab[i])], Disown(owner, i);
    forall j | 0 <= j < NSLOTS ensures SlotAddr(blocks, tab'[i], j) == 0 {
    }
    hide SlotAddr;
    assert SlotsOwned(sb, blocks, tab', owner');
    assert OwnersSlot(sb, blocks, tab', owner');
  }

  /** A free-map write during truncation. */
  lemma {:induction false} FreeKeepsTable(sb: Super, blocks: Blocks, tab: seq<Dinode>, owner: Owner, b: nat, x: Block)
    requires TableOK(sb, blocks, tab, owner) && b < sb.size && sb.BBlock(b) < |blocks|
    ensures var blocks' := blocks[sb.BBlock(b) := x];
            && TableOK(sb, blocks', tab, owner) && SlotsKept(sb, blocks, tab, blocks', tab)
            && SameFiles(sb, blocks, tab, blocks', tab)
            && InodeAreaKept(sb, blocks, blocks')
            && forall c | sb.Data(c) :: blocks'[c] == blocks[c]
  {
    BBlockBelow(sb, b);
    UnownedWrite(sb, blocks, tab, owner, sb.BBlock(b), x);
  }

  /** Gives back exactly the inode's blocks: no "freeing free block", no other file touched. */
  method Itrunc(fs: FileSys, ip: Inode)
    requires fs.Settled() && fs.Locked(ip)
    modifies fs`blocks, fs`tab, fs`owner, fs`live, fs`logged, fs`puts, ip`addrs, ip`size
    ensures fs.Settled() && fs.Locked(ip)
    ensures fs.tab == old(fs.tab)[ip.inum := Emptied(old(fs.tab)[ip.inum])]
    ensures fs.owner == Disown(old(fs.owner), ip.inum)
    ensures fs.live == old(fs.live) - Named(old(fs.blocks), old(fs.tab)[ip.inum], 0, NSLOTS)
    ensures forall i | 0 <= i < |fs.tab| && i != ip.inum :: SameBytes(old(fs.blocks), fs.tab[i], fs.blocks, fs.tab[i])
  {
    hide Recorded;
    FreeDirect(fs, ip);
    FreeIndirect(fs, ip, old(fs.blocks), old(fs.live));
    ip.size := 0;
    EmptyTable(fs.sb, fs.blocks, fs.tab, fs.owner, ip.inum);
    DisownKeys(fs.sb, old(fs.blocks), old(fs.tab), old(fs.owner), ip.inum);
    fs.tab := fs.tab[ip.inum := Emptied(fs.tab[ip.inum])];
    fs.owner := Disown(fs.owner, ip.inum);
    InodesUntouched(fs.sb, old(fs.blocks), fs.blocks, old(fs.tab));
    Iupdate(fs, ip);
  }

  lemma {:induction false} InodesUntouched(sb: Super, blocks: Blocks, blocks': Blocks, tab: seq<Dinode>)
    requires OnDisk(sb, blocks, tab) && InodeAreaKept(sb, blocks, blocks')
    ensures OnDisk(sb, blocks', tab)
  {
    hide Load;
    forall i | 0 <= i < |tab| ensures DiskInodeIs(sb, blocks', i, tab[i]) {
      IBlockBelow(sb, i);
      assert DiskInodeIs(sb, blocks, i, tab[i]);
    }
  }

  /** State during truncation: the table still lists the blocks; those of `freed` have clear bits. */
  ghost predicate Freeing(fs: FileSys, blocks: Blocks, live: set<nat>, freed: set<nat>)
    reads fs
  {
    && TableOK(fs.sb, fs.blocks, fs.tab, fs.owner) && TableOK(fs.sb, blocks, fs.tab, fs.owner)
    && BitmapOK(fs.sb, fs.blocks, fs.live) && live == fs.owner.Keys && fs.live == live - freed && fs.Journaled()
    && SlotsKept(fs.sb, blocks, fs.tab, fs.blocks, fs.tab) && SameFiles(fs.sb, blocks, fs.tab, fs.blocks, fs.tab)
    && InodeAreaKept(fs.sb, blocks, fs.blocks)
    && forall c | fs.sb.Data(c) :: fs.blocks[c] == blocks[c]
  }

  /** One bfree inside itrunc: the block of slot j, which is owned and not freed yet. */
  method FreeSlot(fs: FileSys, i: nat, j: nat, a: nat, ghost blocks: Blocks, ghost live: set<nat>,
                  ghost freed: set<nat>)
    requires Freeing(fs, blocks, live, freed) && i < |fs.tab| && j < NSLOTS
    requires a == SlotAddr(blocks, fs.tab[i], j) != 0 && a !in freed
    modifies fs`blocks, fs`live, fs`logged, fs`puts
    ensures Freeing(fs, blocks, live, freed + {a})
  {
    hide Recorded, SlotAddr, FileByte, BitmapOK, Mapped, ClearBit;
    assert a in fs.owner && fs.sb.Data(a);
    BBlockBelow(fs.sb, a);
    FreeKeepsTable(fs.sb, fs.blocks, fs.tab, fs.owner, a, ClearBit(fs.blocks[fs.sb.BBlock(a)], a % BPB));
    var panicked := fs.Bfree(a);
    assert !panicked;
  }

  method FreeDirect(fs: FileSys, ip: Inode)
    requires fs.Settled() && fs.Locked(ip)
    modifies fs`blocks, fs`live, fs`logged, fs`puts, ip`addrs
    ensures Freeing(fs, old(fs.blocks), old(fs.live), Named(old(fs.blocks), fs.tab[ip.inum], 0, NDIRECT))
    ensures |ip.addrs| == NDIRECT + 1 && ip.addrs[ROOT] == fs.tab[ip.inum].addrs[ROOT]
    ensures forall k | 0 <= k < NDIRECT :: ip.addrs[k] == 0
  {
    hide Recorded, SlotAddr, FileByte, BitmapOK, Mapped, SlotsOwned, OwnersSlot;
    ghost var blocks, di := fs.blocks, fs.tab[ip.inum];
    for i := 0 to NDIRECT
      invariant Freeing(fs, blocks, old(fs.live), Named(blocks, di, 0, i))
      invariant |ip.addrs| == NDIRECT + 1
      invariant forall k | 0 <= k <= ROOT :: ip.addrs[k] == if k < i then 0 else di.addrs[k]
    {
      DirectSlot(blocks, di, i);
      NamedNext(blocks, di, 0, i);
      if ip.addrs[i] != 0 {
        NamedApart(fs.sb, blocks, fs.tab, fs.owner, ip.inum, 0, i, i);
        FreeSlot(fs, ip.inum, i, ip.addrs[i], blocks, old(fs.live), Named(blocks, di, 0, i));
        ip.addrs := ip.addrs[i := 0];
      }
    }
  }

  /** One turn of the loop over the indirect block: its entry j. */
  method FreeEntry(fs: FileSys, i: nat, j: nat, a: nat, ghost blocks: Blocks, ghost live: set<nat>)
    requires i < |fs.tab| && InodeOK(fs.sb, fs.tab[i]) && fs.tab[i].addrs[ROOT] < |blocks| && j < NINDIRECT
    requires Freeing(fs, blocks, live, Direct(blocks, fs.tab[i]) + Named(blocks, fs.tab[i], ROOT + 1, ROOT + 1 + j))
    requires a == SlotAddr(blocks, fs.tab[i], ROOT + 1 + j)
    modifies fs`blocks, fs`live, fs`logged, fs`puts
    ensures Freeing(fs, blocks, live, Direct(blocks, fs.tab[i]) + Named(blocks, fs.tab[i], ROOT + 1, ROOT + 2 + j))
  {
    hide Recorded, SlotAddr, FileByte, BitmapOK, Mapped, SlotsOwned, OwnersSlot, SlotsKept, SameFiles;
    ghost var di, freed := fs.tab[i], Direct(blocks, fs.tab[i]) + Named(blocks, fs.tab[i], ROOT + 1, ROOT + 1 + j);
    NamedNext(blocks, di, ROOT + 1, ROOT + 1 + j);
    assert Direct(blocks, di) + Named(blocks, di, ROOT + 1, ROOT + 2 + j) == freed + if a == 0 then {} else {a};
    if a != 0 {
      NamedApart(fs.sb, blocks, fs.tab, fs.owner, i, 0, NDIRECT, ROOT + 1 + j);
      NamedApart(fs.sb, blocks, fs.tab, fs.owner, i, ROOT + 1, ROOT + 1 + j, ROOT + 1 + j);
      FreeSlot(fs, i, ROOT + 1 + j, a, blocks, live, freed);
    }
  }

  ghost function Direct(blocks: Blocks, di: Dinode): (r: set<nat>)
    requires |di.addrs| == NDIRECT + 1 && di.addrs[ROOT] < |blocks|
  {
    Named(blocks, di, 0, NDIRECT)
  }

  method FreeIndirect(fs: FileSys, ip: Inode, ghost blocks: Blocks, ghost live: set<nat>)
    requires ip.inum < |fs.tab| && InodeOK(fs.sb, fs.tab[ip.inum]) && fs.tab[ip.inum].addrs[ROOT] < |blocks|
    requires Freeing(fs, blocks, live, Named(blocks, fs.tab[ip.inum], 0, NDIRECT))
    requires |ip.addrs| == NDIRECT + 1 && ip.addrs[ROOT] == fs.tab[ip.inum].addrs[ROOT]
    requires forall k | 0 <= k < NDIRECT :: ip.addrs[k] == 0
    modifies fs`blocks, fs`live, fs`logged, fs`puts, ip`addrs
    ensures Freeing(fs, blocks, live, Named(blocks, fs.tab[ip.inum], 0, NSLOTS))
    ensures ip.addrs == NOADDRS
  {
    hide Recorded, SlotAddr, FileByte, BitmapOK, Mapped, SlotsOwned, OwnersSlot, Word, SlotsKept, SameFiles;
    ghost var di := fs.tab[ip.inum];
    var root := ip.addrs[ROOT];
    if root != 0 {
      var bp := fs.blocks[root];
      assert Named(blocks, di, ROOT + 1, ROOT + 1) == {};
      for j := 0 to NINDIRECT
        invariant Freeing(fs, blocks, live, Direct(blocks, di) + Named(blocks, di, ROOT + 1, ROOT + 1 + j))
        invariant ip.addrs == old(ip.addrs)
      {
        EntrySlot(blocks, di, ROOT + 1 + j);
        FreeEntry(fs, ip.inum, j, Word(bp, j), blocks, live);
      }
      ghost var freed := Direct(blocks, di) + Named(blocks, di, ROOT + 1, NSLOTS);
      DirectSlot(blocks, di, ROOT);
      NamedApart(fs.sb, blocks, fs.tab, fs.owner, ip.inum, 0, NDIRECT, ROOT);
      NamedApart(fs.sb, blocks, fs.tab, fs.owner, ip.inum, ROOT + 1, NSLOTS, ROOT);
      FreeSlot(fs, ip.inum, ROOT, root, blocks, live, freed);
      ip.addrs := ip.addrs[ROOT := 0];
    }
    AllNamed(blocks, di);
  }

  lemma {:induction false} AllNamed(blocks: Blocks, di: Dinode)
    requires |di.addrs| == NDIRECT + 1 && di.addrs[ROOT] < |blocks|
    ensures Named(blocks, di, 0, NSLOTS) ==
            if di.addrs[ROOT] == 0 then Named(blocks, di, 0, NDIRECT)
            else Named(blocks, di, 0, NDIRECT) + Named(blocks, di, ROOT + 1, NSLOTS) + {di.addrs[ROOT]}
  {
    hide Word;
    DirectSlot(blocks, di, ROOT);
    forall j | ROOT < j < NSLOTS ensures di.addrs[ROOT] == 0 ==> SlotAddr(blocks, di, j) == 0 {
      EntrySlot(blocks, di, j);
    }
  }
}
