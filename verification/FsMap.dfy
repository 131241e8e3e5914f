/** bmap of fs.c. */
module FsMap {
  import opened Bytes
  import opened Options
  import opened FsLayout
  import opened FsGrowth
  import opened FsInode
  import opened FsBlocks

  /** No block of the inode area differs. */
  ghost predicate InodeAreaKept(sb: Super, blocks: Blocks, blocks': Blocks) {
    && |blocks'| == |blocks|
    && forall c | 0 <= c < |blocks| && c < sb.bmapstart :: blocks'[c] == blocks[c]
  }

  /** The table after inode i got new addresses. */
  ghost function WithAddrs(tab: seq<Dinode>, i: nat, addrs: seq<uint32>): (r: seq<Dinode>)
    requires i < |tab|
  {
    tab[i := tab[i].(addrs := addrs)]
  }

  /** An empty direct slot, or the empty indirect slot, gets a fresh zeroed block. */
  method AttachSlot(fs: FileSys, ip: Inode, j: nat) returns (r: Option<uint32>)
    requires fs.Ok() && fs.Locked(ip) && j <= ROOT && ip.addrs[j] == 0
    modifies fs`blocks, fs`tab, fs`owner, fs`live, fs`logged, fs`puts, ip`addrs
    ensures r.None? <==> FreeBlocks(fs.sb, old(fs.owner)) == {}
    ensures r.None? ==> unchanged(fs) && unchanged(ip)
    ensures r.Some? ==> fs.Ok() && fs.Locked(ip) && fs.sb.Data(r.value) && r.value !in old(fs.owner)
    ensures r.Some? ==> Grew(fs.sb, old(fs.Image()), fs.Image(), ip.inum, {j})
    ensures r.Some? ==> ip.addrs == old(ip.addrs)[j := r.value] && fs.tab == WithAddrs(old(fs.tab), ip.inum, ip.addrs)
    ensures r.Some? ==> fs.owner == old(fs.owner)[r.value := (ip.inum, j)]
    ensures r.Some? ==> SlotsPlus(fs.sb, old(fs.blocks), old(fs.tab), fs.blocks, fs.tab, ip.inum, j, r.value)
    ensures r.Some? ==> SameFiles(fs.sb, old(fs.blocks), old(fs.tab), fs.blocks, fs.tab)
    ensures r.Some? ==> InodeAreaKept(fs.sb, old(fs.blocks), fs.blocks)
    ensures r.Some? ==> fs.logged == old(fs.logged) + AllocLogs(fs.sb, old(fs.Image()), fs.Image(), ip.inum)
  {
    hide SlotAddr, BitmapOK, SetBit, SlotsOwned, OwnersSlot, Mapped, SlotsKept, SlotsPlus, SameFiles, AllocLogs, Grew,
         Recorded;
    ghost var sb, blocks, tab, owner := fs.sb, fs.blocks, fs.tab, fs.owner;
    DirectSlot(blocks, tab[ip.inum], j);
    r := fs.Balloc();
    if r.Some? {
      var a := r.value;
      assert a in FreeBlocks(sb, owner);
      BBlockBelow(sb, a);
      AllocKeepsTable(sb, blocks, fs.blocks, tab, owner, a);
      ip.addrs := ip.addrs[j := a];
      DirectAttached(sb, blocks, fs.blocks, tab, owner, ip.inum, j, a);
      fs.tab := WithAddrs(tab, ip.inum, ip.addrs);
      fs.owner := owner[a := (ip.inum, j)];
      GrewOne(sb, State(blocks, tab, owner), fs.Image(), ip.inum, j, a);
      AllocOne(sb, State(blocks, tab, owner), fs.Image(), ip.inum, j, a);
    }
  }

  lemma {:induction false} DirectAttached(sb: Super, blocks: Blocks, blocks': Blocks, tab: seq<Dinode>, owner: Owner,
                                          i: nat, j: nat, a: uint32)
    requires TableOK(sb, blocks, tab, owner) && TableOK(sb, blocks', tab, owner)
    requires SlotsKept(sb, blocks, tab, blocks', tab)
    requires forall c | c in owner :: blocks'[c] == blocks[c]
    requires i < |tab| && j <= ROOT && tab[i].addrs[j] == 0 && sb.Data(a) && a !in owner && blocks'[a] == ZERO
    ensures var tab' := WithAddrs(tab, i, tab[i].addrs[j := a]);
            && TableOK(sb, blocks', tab', owner[a := (i, j)])
            && SlotsPlus(sb, blocks, tab, blocks', tab', i, j, a)
            && SameFiles(sb, blocks, tab, blocks', tab')
  {
    assert SlotAddr(blocks, tab[i], j) == 0;
    hide SlotAddr, FileByte;
    AttachDirect(sb, blocks', tab, owner, i, j, a);
    var tab' := WithAddrs(tab, i, tab[i].addrs[j := a]);
    assert SlotsPlus(sb, blocks, tab, blocks', tab', i, j, a);
    AttachKeepsBytes(sb, blocks, tab, blocks', tab', owner, i, j, a);
  }

  /** An empty entry of an existing indirect block gets a fresh zeroed block. */
  method AttachIndirect(fs: FileSys, ip: Inode, j: nat) returns (r: Option<uint32>)
    requires fs.Ok() && fs.Locked(ip) && ROOT < j < NSLOTS
    requires ip.addrs[ROOT] != 0 && SlotAddr(fs.blocks, ip.AsDinode(), j) == 0
    modifies fs`blocks, fs`tab, fs`owner, fs`live, fs`logged, fs`puts
    ensures r.None? <==> FreeBlocks(fs.sb, old(fs.owner)) == {}
    ensures r.None? ==> unchanged(fs)
    ensures r.Some? ==> fs.Ok() && fs.tab == old(fs.tab) && fs.sb.Data(r.value) && r.value !in old(fs.owner)
    ensures r.Some? ==> Grew(fs.sb, old(fs.Image()), fs.Image(), ip.inum, {j})
    ensures r.Some? ==> fs.owner == old(fs.owner)[r.value := (ip.inum, j)]
    ensures r.Some? ==> SlotsPlus(fs.sb, old(fs.blocks), fs.tab, fs.blocks, fs.tab, ip.inum, j, r.value)
    ensures r.Some? ==> SameFiles(fs.sb, old(fs.blocks), fs.tab, fs.blocks, fs.tab)
    ensures r.Some? ==> InodeAreaKept(fs.sb, old(fs.blocks), fs.blocks)
    ensures r.Some? ==> fs.logged == old(fs.logged) + AllocLogs(fs.sb, old(fs.Image()), fs.Image(), ip.inum)
  {
    hide SlotAddr, BitmapOK, SetBit, SetWord, SlotsOwned, OwnersSlot, Mapped, SlotsKept, SlotsPlus, SameFiles, AllocLogs, Grew,
         Recorded;
    ghost var sb, blocks, tab, owner, i := fs.sb, fs.blocks, fs.tab, fs.owner, ip.inum;
    var root := ip.addrs[ROOT];
    var bp := fs.blocks[root];
    r := fs.Balloc();
    if r.Some? {
      var a := r.value;
      assert a in FreeBlocks(sb, owner);
      ghost var mid := fs.blocks;
      RootOwned(sb, blocks, tab, owner, i);
      BBlockBelow(sb, a);
      AllocKeepsTable(sb, blocks, mid, tab, owner, a);
      EntryAttached(sb, blocks, mid, tab, owner, i, j, a);
      BitmapKept(sb, fs.blocks, fs.live, root, SetWord(bp, j - ROOT - 1, a));
      fs.LogWrite(root, SetWord(bp, j - ROOT - 1, a));
      fs.owner := owner[a := (i, j)];
      GrewOne(sb, State(blocks, tab, owner), fs.Image(), i, j, a);
      AllocOne(sb, State(blocks, tab, owner), fs.Image(), i, j, a);
    }
  }

  lemma {:induction false} EntryAttached(sb: Super, blocks: Blocks, mid: Blocks, tab: seq<Dinode>, owner: Owner,
                                         i: nat, j: nat, a: uint32)
    requires TableOK(sb, blocks, tab, owner) && TableOK(sb, mid, tab, owner)
    requires SlotsKept(sb, blocks, tab, mid, tab)
    requires forall c | c in owner :: mid[c] == blocks[c]
    requires i < |tab| && ROOT < j < NSLOTS && tab[i].addrs[ROOT] != 0
    requires SlotAddr(blocks, tab[i], j) == 0 && sb.Data(a) && a !in owner && mid[a] == ZERO
    ensures var root := tab[i].addrs[ROOT];
            var blocks' := mid[root := SetWord(mid[root], j - ROOT - 1, a)];
            && TableOK(sb, blocks', tab, owner[a := (i, j)])
            && SlotsPlus(sb, blocks, tab, blocks', tab, i, j, a)
            && SameFiles(sb, blocks, tab, blocks', tab)
  {
    hide SlotAddr, FileByte, SetWord;
    var root := tab[i].addrs[ROOT];
    var blocks' := mid[root := SetWord(mid[root], j - ROOT - 1, a)];
    RootOwned(sb, blocks, tab, owner, i);
    AttachEntry(sb, mid, tab, owner, i, j, a);
    assert SlotsPlus(sb, blocks, tab, blocks', tab, i, j, a);
    AttachKeepsBytes(sb, blocks, tab, blocks', tab, owner, i, j, a);
  }

  /** Inode i may name more blocks than before, and nothing else about slots differs. */
  ghost predicate SlotsGrow(sb: Super, blocks: Blocks, tab: seq<Dinode>, blocks': Blocks, tab': seq<Dinode>, i: nat)
    requires TableShape(sb, blocks, tab) && TableShape(sb, blocks', tab')
  {
    forall i', j' | 0 <= i' < |tab| && 0 <= j' < NSLOTS ::
      i' != i || SlotAddr(blocks, tab[i'], j') != 0 ==>
        SlotAddr(blocks', tab'[i'], j') == SlotAddr(blocks, tab[i'], j')
  }

  /** Inode i of the file system lacks more of the slots w than there are free blocks. */
  ghost predicate TooFew(sb: Super, x: State, i: nat, w: set<nat>)
    requires TableShape(sb, x.blocks, x.tab) && i < |x.tab|
  {
    |FreeBlocks(sb, x.owner)| < |Missing(sb, x, i, w)|
  }

  lemma {:induction false} EntryData(sb: Super, blocks: Blocks, tab: seq<Dinode>, owner: Owner, i: nat, j: nat)
    requires TableOK(sb, blocks, tab, owner) && i < |tab| && j < NSLOTS
    ensures SlotAddr(blocks, tab[i], j) != 0 ==> sb.Data(SlotAddr(blocks, tab[i], j))
  {
    hide SlotAddr, Mapped;
  }

  method BmapDirect(fs: FileSys, ip: Inode, bn: nat) returns (r: Option<uint32>)
    requires fs.Ok() && fs.Locked(ip) && bn < NDIRECT
    modifies fs`blocks, fs`tab, fs`owner, fs`live, fs`logged, fs`puts, ip`addrs
    ensures r.None? <==> TooFew(fs.sb, old(fs.Image()), ip.inum, SlotsFor(bn))
    ensures r.Some? ==> fs.Ok() && fs.Locked(ip)
    ensures r.Some? ==> Grew(fs.sb, old(fs.Image()), fs.Image(), ip.inum, SlotsFor(bn))
    ensures r.Some? ==> fs.sb.Data(r.value) && r.value == SlotAddr(fs.blocks, fs.tab[ip.inum], SlotOf(bn))
    ensures r.Some? ==> fs.tab == WithAddrs(old(fs.tab), ip.inum, ip.addrs)
    ensures r.Some? ==> SlotsGrow(fs.sb, old(fs.blocks), old(fs.tab), fs.blocks, fs.tab, ip.inum)
    ensures r.Some? ==> SameFiles(fs.sb, old(fs.blocks), old(fs.tab), fs.blocks, fs.tab)
    ensures r.Some? ==> InodeAreaKept(fs.sb, old(fs.blocks), fs.blocks)
    ensures r.Some? && old(ip.addrs)[bn] != 0 ==> unchanged(fs) && unchanged(ip)
    ensures r.Some? ==> fs.logged == old(fs.logged) + AllocLogs(fs.sb, old(fs.Image()), fs.Image(), ip.inum)
  {
    hide BitmapOK, SlotsOwned, OwnersSlot, Mapped, FileByte, Word, Grew, AllocLogs, Recorded;
    ghost var x := fs.Image();
    assert SlotsFor(bn) == {bn};
    OneSlot(fs.sb, x, ip.inum, bn);
    if ip.addrs[bn] == 0 {
      r := AttachSlot(fs, ip, bn);
      if r.None? {
        return;
      }
      EnoughFor(fs.sb, x, fs.Image(), ip.inum, {bn});
    } else {
      GrewNone(fs.sb, x, ip.inum, {bn});
      AllocNone(fs.sb, x, ip.inum);
    }
    EntryData(fs.sb, fs.blocks, fs.tab, fs.owner, ip.inum, bn);
    r := Some(ip.addrs[bn]);
  }

  method BmapIndirect(fs: FileSys, ip: Inode, bn: nat) returns (r: Option<uint32>)
    requires fs.Ok() && fs.Locked(ip) && NDIRECT <= bn < MAXFILE
    modifies fs`blocks, fs`tab, fs`owner, fs`live, fs`logged, fs`puts, ip`addrs
    ensures r.None? <==> TooFew(fs.sb, old(fs.Image()), ip.inum, SlotsFor(bn))
    ensures r.Some? ==> fs.Ok() && fs.Locked(ip)
    ensures r.Some? ==> Grew(fs.sb, old(fs.Image()), fs.Image(), ip.inum, SlotsFor(bn))
    ensures r.Some? ==> fs.sb.Data(r.value) && r.value == SlotAddr(fs.blocks, fs.tab[ip.inum], SlotOf(bn))
    ensures r.Some? ==> fs.tab == WithAddrs(old(fs.tab), ip.inum, ip.addrs)
    ensures r.Some? ==> SlotsGrow(fs.sb, old(fs.blocks), old(fs.tab), fs.blocks, fs.tab, ip.inum)
    ensures r.Some? ==> SameFiles(fs.sb, old(fs.blocks), old(fs.tab), fs.blocks, fs.tab)
    ensures r.Some? ==> InodeAreaKept(fs.sb, old(fs.blocks), fs.blocks)
    ensures r.Some? && old(SlotAddr(fs.blocks, fs.tab[ip.inum], SlotOf(bn))) != 0 ==> unchanged(fs) && unchanged(ip)
    ensures r.Some? ==> fs.logged == old(fs.logged) + AllocLogs(fs.sb, old(fs.Image()), fs.Image(), ip.inum)
  {
    hide SlotAddr, BitmapOK, SlotsOwned, OwnersSlot, Mapped, SameFiles, SlotsPlus, SlotsGrow, SlotsKept, Word, Grew,
         TooFew, AllocLogs, Recorded;
    ghost var sb, blocks, tab, i, x := fs.sb, fs.blocks, fs.tab, ip.inum, fs.Image();
    ghost var s := SlotOf(bn);
    assert {ROOT} + {s} == SlotsFor(bn);
    EntrySlot(blocks, tab[i], s);
    r := EnsureRoot(fs, ip);
    if r.None? {
      DirectSlot(blocks, tab[i], ROOT);
      RootTooFew(sb, x, i, s);
      return;
    }
    ghost var mid, mtab, y := fs.blocks, fs.tab, fs.Image();
    OneSlot(sb, y, i, s);
    TooFewLater(sb, x, y, i, {ROOT}, {s});
    EntrySlot(mid, ip.AsDinode(), SlotOf(bn));
    var a := Word(fs.blocks[ip.addrs[ROOT]], bn - NDIRECT);
    if a == 0 {
      r := AttachIndirect(fs, ip, SlotOf(bn));
      if r.None? {
        return;
      }
      a := r.value;
      EnoughFor(sb, y, fs.Image(), i, {s});
      GrewTwice(sb, x, y, fs.Image(), i, {ROOT}, {s});
      AllocTwice(sb, x, y, fs.Image(), i, {ROOT}, {s});
      PlusGrows(sb, mid, mtab, fs.blocks, fs.tab, i, SlotOf(bn), a);
      GrowTwice(sb, blocks, tab, mid, mtab, fs.blocks, fs.tab, i);
    } else {
      GrewNone(sb, y, i, {s});
      GrewTwice(sb, x, y, y, i, {ROOT}, {s});
    }
    EntryData(sb, fs.blocks, fs.tab, fs.owner, i, SlotOf(bn));
    r := Some(a);
  }

  /** The indirect block, allocated if absent. */
  method EnsureRoot(fs: FileSys, ip: Inode) returns (r: Option<uint32>)
    requires fs.Ok() && fs.Locked(ip)
    modifies fs`blocks, fs`tab, fs`owner, fs`live, fs`logged, fs`puts, ip`addrs
    ensures r.None? <==> old(ip.addrs)[ROOT] == 0 && FreeBlocks(fs.sb, old(fs.owner)) == {}
    ensures r.Some? ==> fs.Ok() && fs.Locked(ip) && ip.addrs[ROOT] != 0
    ensures r.Some? ==> Grew(fs.sb, old(fs.Image()), fs.Image(), ip.inum, {ROOT})
    ensures r.Some? ==> fs.tab == WithAddrs(old(fs.tab), ip.inum, ip.addrs)
    ensures r.Some? ==> SlotsGrow(fs.sb, old(fs.blocks), old(fs.tab), fs.blocks, fs.tab, ip.inum)
    ensures r.Some? ==> forall j | 0 <= j < NSLOTS && j != ROOT ::
      SlotAddr(fs.blocks, fs.tab[ip.inum], j) == SlotAddr(old(fs.blocks), old(fs.tab)[ip.inum], j)
    ensures r.Some? ==> SameFiles(fs.sb, old(fs.blocks), old(fs.tab), fs.blocks, fs.tab)
    ensures r.Some? ==> InodeAreaKept(fs.sb, old(fs.blocks), fs.blocks)
    ensures r.Some? && old(ip.addrs)[ROOT] != 0 ==> unchanged(fs) && unchanged(ip)
    ensures r.Some? ==> fs.logged == old(fs.logged) + AllocLogs(fs.sb, old(fs.Image()), fs.Image(), ip.inum)
  {
    hide SlotAddr, BitmapOK, SlotsOwned, OwnersSlot, Mapped, Word, Grew, AllocLogs, Recorded;
    DirectSlot(fs.blocks, fs.tab[ip.inum], ROOT);
    if ip.addrs[ROOT] == 0 {
      r := AttachSlot(fs, ip, ROOT);
      if r.None? {
        return;
      }
      PlusGrows(fs.sb, old(fs.blocks), old(fs.tab), fs.blocks, fs.tab, ip.inum, ROOT, r.value);
    } else {
      GrewNone(fs.sb, fs.Image(), ip.inum, {ROOT});
      AllocNone(fs.sb, fs.Image(), ip.inum);
    }
    r := Some(ip.addrs[ROOT]);
  }

  /** A single slot is missing or not. */
  lemma {:induction false} OneSlot(sb: Super, x: State, i: nat, j: nat)
    requires TableShape(sb, x.blocks, x.tab) && i < |x.tab| && j < NSLOTS
    ensures Missing(sb, x, i, {j}) == if Addr(sb, x, i, j) == 0 then {j} else {}
    ensures TooFew(sb, x, i, {j}) <==> Addr(sb, x, i, j) == 0 && FreeBlocks(sb, x.owner) == {}
  {
    hide SlotAddr;
    var m := Missing(sb, x, i, {j});
    assert m == if Addr(sb, x, i, j) == 0 then {j} else {};
  }

  lemma {:induction false} EnoughFor(sb: Super, x: State, y: State, i: nat, w: set<nat>)
    requires Grew(sb, x, y, i, w)
    ensures !TooFew(sb, x, i, w)
  {
    hide Grew, Missing, FreeBlocks;
    assert TableShape(sb, x.blocks, x.tab) && i < |x.tab| by {
      GrewShape(sb, x, y, i, w);
    }
    GrewSize(sb, x, y, i, w);
  }

  lemma {:induction false} GrewShape(sb: Super, x: State, y: State, i: nat, w: set<nat>)
    requires Grew(sb, x, y, i, w)
    ensures TableShape(sb, x.blocks, x.tab) && TableShape(sb, y.blocks, y.tab) && i < |x.tab| == |y.tab|
  {
  }

  lemma {:induction false} TooFewLater(sb: Super, x: State, y: State, i: nat, v: set<nat>, w: set<nat>)
    requires Grew(sb, x, y, i, v) && forall j | j in w :: j < NSLOTS
    ensures TableShape(sb, x.blocks, x.tab) && TableShape(sb, y.blocks, y.tab) && i < |x.tab| == |y.tab|
    ensures TooFew(sb, y, i, w) <==> TooFew(sb, x, i, v + w)
  {
    hide Grew, Missing, FreeBlocks;
    GrewShape(sb, x, y, i, v);
    StuckLater(sb, x, y, i, v, w);
  }

  lemma {:induction false} RootTooFew(sb: Super, x: State, i: nat, j: nat)
    requires TableShape(sb, x.blocks, x.tab) && i < |x.tab| && Addr(sb, x, i, ROOT) == 0 && FreeBlocks(sb, x.owner) == {}
    ensures TooFew(sb, x, i, {ROOT} + {j})
  {
    assert ROOT in Missing(sb, x, i, {ROOT} + {j});
  }

  lemma {:induction false} DirectSlot(blocks: Blocks, di: Dinode, j: nat)
    requires |di.addrs| == NDIRECT + 1 && di.addrs[ROOT] < |blocks| && j <= ROOT
    ensures SlotAddr(blocks, di, j) == di.addrs[j]
  {
  }

  lemma {:induction false} EntrySlot(blocks: Blocks, di: Dinode, j: nat)
    requires |di.addrs| == NDIRECT + 1 && di.addrs[ROOT] < |blocks| && ROOT < j < NSLOTS
    ensures SlotAddr(blocks, di, j) == if di.addrs[ROOT] == 0 then 0 else Word(blocks[di.addrs[ROOT]], j - ROOT - 1)
  {
  }

  lemma {:induction false} PlusGrows(sb: Super, blocks: Blocks, tab: seq<Dinode>, blocks': Blocks, tab': seq<Dinode>,
                                     i: nat, j: nat, a: nat)
    requires TableShape(sb, blocks, tab) && TableShape(sb, blocks', tab') && i < |tab| && j < NSLOTS
    requires SlotsPlus(sb, blocks, tab, blocks', tab', i, j, a) && SlotAddr(blocks, tab[i], j) == 0
    ensures SlotsGrow(sb, blocks, tab, blocks', tab', i) && SlotAddr(blocks', tab'[i], j) == a
  {
    hide SlotAddr;
  }

  lemma {:induction false} GrowTwice(sb: Super, b0: Blocks, t0: seq<Dinode>, b1: Blocks, t1: seq<Dinode>,
                                     b2: Blocks, t2: seq<Dinode>, i: nat)
    requires TableShape(sb, b0, t0) && TableShape(sb, b1, t1) && TableShape(sb, b2, t2)
    requires SlotsGrow(sb, b0, t0, b1, t1, i) && SlotsGrow(sb, b1, t1, b2, t2, i)
    requires SameFiles(sb, b0, t0, b1, t1) && SameFiles(sb, b1, t1, b2, t2)
    ensures SlotsGrow(sb, b0, t0, b2, t2, i) && SameFiles(sb, b0, t0, b2, t2)
  {
    hide SlotAddr, FileByte;
    forall k | 0 <= k < |t0| ensures SameBytes(b0, t0[k], b2, t2[k]) {
      assert SameBytes(b0, t0[k], b1, t1[k]) && SameBytes(b1, t1[k], b2, t2[k]);
    }
  }

  /** The address of the file's nth block, allocating it (and the indirect block) if absent.
      Allocation changes no byte of any file.  None is a panic: out of range or out of blocks. */
  method Bmap(fs: FileSys, ip: Inode, bn: nat) returns (r: Option<uint32>)
    requires fs.Ok() && fs.Locked(ip)
    modifies fs`blocks, fs`tab, fs`owner, fs`live, fs`logged, fs`puts, ip`addrs
    ensures r.None? <==> bn >= MAXFILE || TooFew(fs.sb, old(fs.Image()), ip.inum, SlotsFor(bn))
    ensures r.Some? ==> bn < MAXFILE && fs.Ok() && fs.Locked(ip)
    ensures r.Some? ==> Grew(fs.sb, old(fs.Image()), fs.Image(), ip.inum, SlotsFor(bn))
    ensures r.Some? ==> fs.sb.Data(r.value) && r.value == SlotAddr(fs.blocks, fs.tab[ip.inum], SlotOf(bn))
    ensures r.Some? ==> fs.tab == WithAddrs(old(fs.tab), ip.inum, ip.addrs)
    ensures r.Some? ==> SlotsGrow(fs.sb, old(fs.blocks), old(fs.tab), fs.blocks, fs.tab, ip.inum)
    ensures r.Some? ==> SameFiles(fs.sb, old(fs.blocks), old(fs.tab), fs.blocks, fs.tab)
    ensures r.Some? ==> InodeAreaKept(fs.sb, old(fs.blocks), fs.blocks)
    ensures r.Some? && old(SlotAddr(fs.blocks, fs.tab[ip.inum], SlotOf(bn))) != 0 ==> unchanged(fs) && unchanged(ip)
    ensures r.Some? ==> fs.logged == old(fs.logged) + AllocLogs(fs.sb, old(fs.Image()), fs.Image(), ip.inum)
  {
    hide TooFew, Grew, SlotsGrow, SameFiles, SlotsFor, AllocLogs, Recorded;
    if bn < NDIRECT {
      r := BmapDirect(fs, ip, bn);
    } else if bn < MAXFILE {
      r := BmapIndirect(fs, ip, bn);
    } else {
      r := None;
    }
  }
}
