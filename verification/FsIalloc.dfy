/** ialloc of fs.c. */
module FsIalloc {
  import opened Bytes
  import opened Options
  import opened FsLayout
  import opened FsInode
  import opened FsBlocks
  import opened FsTrunc

  /** An inode that names no block. */
  function Fresh(typ: uint16): (di: Dinode) {
    Dinode(typ, 0, 0, 0, 0, NOADDRS)
  }

  /** Inodes of type 0 were truncated before they were given up. */
  ghost predicate FreeEmpty(tab: seq<Dinode>) {
    forall i | 0 <= i < |tab| && tab[i].typ == 0 :: tab[i].size == 0 && tab[i].addrs == NOADDRS
  }

  /** Giving an empty inode a type, and clearing its other fields, keeps every block list. */
  lemma {:induction false} TypedTable(sb: Super, blocks: Blocks, tab: seq<Dinode>, owner: Owner, i: nat, typ: uint16)
    requires TableOK(sb, blocks, tab, owner) && i < |tab| && tab[i].size == 0 && tab[i].addrs == NOADDRS
    ensures TableOK(sb, blocks, tab[i := Fresh(typ)], owner)
  {
    hide Word;
    var tab' := tab[i := Fresh(typ)];
    forall k, j | 0 <= k < |tab| && 0 <= j < NSLOTS
      ensures SlotAddr(blocks, tab'[k], j) == SlotAddr(blocks, tab[k], j)
    {
    }
    hide SlotAddr;
    assert SlotsOwned(sb, blocks, tab', owner) && OwnersSlot(sb, blocks, tab', owner);
    forall k | 0 <= k < |tab|
      ensures Mapped(blocks, tab'[k])
    {
      assert Mapped(blocks, tab[k]);
    }
  }

  /** The lowest free inode gets the type and nothing else of the file system changes; None is the
      panic "no inodes".  Inode 0 is never given out. */
  method Ialloc(fs: FileSys, typ: uint16) returns (r: Option<Inode>)
    requires fs.Settled() && FreeEmpty(fs.tab) && typ != 0
    modifies fs`blocks, fs`tab, fs`logged, fs`puts
    ensures r.None? <==> forall i | 1 <= i < |old(fs.tab)| :: old(fs.tab)[i].typ != 0
    ensures r.None? ==> unchanged(fs)
    ensures r.Some? ==>
      var i := r.value.inum;
      && fresh(r.value) && fs.Settled() && FreeEmpty(fs.tab)
      && 1 <= i < |old(fs.tab)| && old(fs.tab)[i].typ == 0 && (forall k | 1 <= k < i :: old(fs.tab)[k].typ != 0)
      && fs.tab == old(fs.tab)[i := Fresh(typ)] && fs.Locked(r.value)
      && fs.logged == old(fs.logged) + {fs.sb.IBlock(i)}
  {
    hide BitmapOK, SlotsOwned, OwnersSlot, Mapped, SlotAddr, Load, Store, Recorded;
    var inum := 1;
    while inum < fs.sb.ninodes
      invariant unchanged(fs) && 1 <= inum
      invariant forall k | 1 <= k < inum && k < |fs.tab| :: fs.tab[k].typ != 0
    {
      IBlockBelow(fs.sb, inum);
      assert DiskInodeIs(fs.sb, fs.blocks, inum, fs.tab[inum]);
      var dip := DiskInode(fs.sb, fs.blocks, inum);
      if dip.typ == 0 {
        assert old(fs.tab)[inum].typ == 0;
        Mark(fs, inum, typ);
        var ip := new Inode(inum, Fresh(typ));
        return Some(ip);
      }
      inum := inum + 1;
    }
    assert forall i | 1 <= i < |fs.tab| :: fs.tab[i].typ != 0;
    r := None;
  }

  /** Stores the fresh inode and logs its block. */
  method Mark(fs: FileSys, i: nat, typ: uint16)
    requires fs.Settled() && FreeEmpty(fs.tab) && typ != 0 && i < |fs.tab| && fs.tab[i].typ == 0
    modifies fs`blocks, fs`tab, fs`logged, fs`puts
    ensures fs.Settled() && FreeEmpty(fs.tab) && fs.tab == old(fs.tab)[i := Fresh(typ)]
    ensures fs.logged == old(fs.logged) + {fs.sb.IBlock(i)}
  {
    hide BitmapOK, SlotsOwned, Mapped, SlotAddr, FileByte, Load, Store, Recorded;
    var sb, c := fs.sb, fs.sb.IBlock(i);
    IBlockBelow(sb, i);
    var x := Store(fs.blocks[c], i % IPB, Fresh(typ));
    TypedTable(sb, fs.blocks, fs.tab, fs.owner, i, typ);
    ghost var tab' := fs.tab[i := Fresh(typ)];
    assert forall k | 0 <= k < |tab'| && k != i :: DiskInodeIs(sb, fs.blocks, k, fs.tab[k]);
    InodeStored(sb, fs.blocks, tab', i);
    UnownedWrite(sb, fs.blocks, tab', fs.owner, c, x);
    BitmapKept(sb, fs.blocks, fs.live, c, x);
    fs.tab := tab';
    fs.LogWrite(c, x);
  }
}
