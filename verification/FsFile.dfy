/** readi and writei of fs.c: byte ranges of a file over direct and indirect blocks. */
module FsFile {
  import opened Bytes
  import opened Options
  import opened Sets
  import opened FsLayout
  import opened FsGrowth
  import opened FsInode
  import opened FsBlocks
  import opened FsMap
  import opened FsTrunc

  const T_DEV := 3

  /** The bytes of inode i are src from off on and otherwise as before; every other file is as before. */
  ghost predicate Spliced(sb: Super, blocks: Blocks, tab: seq<Dinode>, blocks': Blocks, tab': seq<Dinode>,
                          i: nat, off: nat, src: seq<byte>)
    requires TableShape(sb, blocks, tab) && TableShape(sb, blocks', tab') && i < |tab|
  {
    && (forall k | 0 <= k < MAXFILE * BSIZE ::
          FileByte(blocks', tab'[i], k) == if off <= k < off + |src| then src[k - off] else FileByte(blocks, tab[i], k))
    && (forall i' | 0 <= i' < |tab| && i' != i :: tab'[i'] == tab[i'] && SameBytes(blocks, tab[i'], blocks', tab'[i']))
  }

  lemma {:induction false} SpliceTwice(sb: Super, b0: Blocks, t0: seq<Dinode>, b1: Blocks, t1: seq<Dinode>,
                                       b2: Blocks, t2: seq<Dinode>, i: nat, off: nat, s1: seq<byte>, s2: seq<byte>)
    requires TableShape(sb, b0, t0) && TableShape(sb, b1, t1) && TableShape(sb, b2, t2) && i < |t0|
    requires Spliced(sb, b0, t0, b1, t1, i, off, s1) && Spliced(sb, b1, t1, b2, t2, i, off + |s1|, s2)
    ensures Spliced(sb, b0, t0, b2, t2, i, off, s1 + s2)
  {
    hide FileByte;
    forall i' | 0 <= i' < |t0| && i' != i ensures SameBytes(b0, t0[i'], b2, t2[i']) {
      assert SameBytes(b0, t0[i'], b1, t1[i']) && SameBytes(b1, t1[i'], b2, t2[i']);
    }
  }

  /** `memmove(data + at, src, n)` within one block. */
  function Patch(b: Block, at: nat, src: seq<byte>): (r: Block)
    requires at + |src| <= BSIZE
  {
    b[..at] + src + b[at + |src|..]
  }

  lemma {:induction false} PatchByte(b: Block, off: nat, src: seq<byte>, k: nat)
    requires off % BSIZE + |src| <= BSIZE
    ensures k / BSIZE == off / BSIZE ==>
              Patch(b, off % BSIZE, src)[k % BSIZE] == if off <= k < off + |src| then src[k - off] else b[k % BSIZE]
    ensures k / BSIZE != off / BSIZE ==> !(off <= k < off + |src|)
  {
    assert k == BSIZE * (k / BSIZE) + k % BSIZE && off == BSIZE * (off / BSIZE) + off % BSIZE;
  }

  /** One turn of writei's loop: the part of the range that lies in one block. */
  method WriteChunk(fs: FileSys, ip: Inode, off: nat, src: seq<byte>) returns (ok: bool)
    requires fs.Ok() && fs.Locked(ip)
    requires 0 < |src| && off % BSIZE + |src| <= BSIZE && off + |src| <= MAXFILE * BSIZE
    modifies fs`blocks, fs`tab, fs`owner, fs`live, fs`logged, fs`puts, ip`addrs
    ensures ok <==> !TooFew(fs.sb, old(fs.Image()), ip.inum, SlotsFor(off / BSIZE))
    ensures ok ==> fs.Ok() && fs.Locked(ip) && fs.tab == WithAddrs(old(fs.tab), ip.inum, ip.addrs)
    ensures ok ==> Spliced(fs.sb, old(fs.blocks), old(fs.tab), fs.blocks, fs.tab, ip.inum, off, src)
    ensures ok ==> SlotsGrow(fs.sb, old(fs.blocks), old(fs.tab), fs.blocks, fs.tab, ip.inum)
    ensures ok ==> fs.sb.Data(SlotAddr(fs.blocks, fs.tab[ip.inum], SlotOf(off / BSIZE)))
    ensures ok ==> InodeAreaKept(fs.sb, old(fs.blocks), fs.blocks)
    ensures ok && old(SlotAddr(fs.blocks, fs.tab[ip.inum], SlotOf(off / BSIZE))) != 0 ==> ip.addrs == old(ip.addrs)
    ensures ok ==> Grew(fs.sb, old(fs.Image()), fs.Image(), ip.inum, SlotsFor(off / BSIZE))
    ensures ok ==>
      fs.logged == old(fs.logged) + WriteLogs(fs.sb, old(fs.Image()), fs.Image(), ip.inum, SlotsFor(off / BSIZE))
  {
    hide SlotAddr, BitmapOK, SlotsOwned, OwnersSlot, Mapped, SameFiles, SlotsGrow, Spliced, SlotsKept, SameBytes,
         Recorded, Grew, TooFew, AllocLogs, WriteLogs, SlotsFor, InodeAreaKept, Patch;
    ghost var sb, b0, t0, i, x := fs.sb, fs.blocks, fs.tab, ip.inum, fs.Image();
    var bn := off / BSIZE;
    var r := Bmap(fs, ip, bn);
    if r.None? {
      return false;
    }
    var a := r.value;
    ghost var b1, y := fs.blocks, fs.Image();
    var bp := fs.blocks[a];
    var data := Patch(bp, off % BSIZE, src);
    ChunkWritten(sb, b0, t0, b1, fs.tab, fs.owner, i, off, src);
    BitmapKept(sb, fs.blocks, fs.live, a, data);
    fs.LogWrite(a, data);
    GrewKept(sb, x, y, fs.Image(), i, SlotsFor(bn));
    ChunkLogs(sb, x, y, fs.Image(), i, bn, a);
    ok := true;
  }

  /** What bmap logs for one block, and the data. */
  lemma {:induction false} ChunkLogs(sb: Super, x: State, y: State, z: State, i: nat, bn: nat, a: nat)
    requires TableShape(sb, y.blocks, y.tab) && TableShape(sb, z.blocks, z.tab) && i < |y.tab| && bn < MAXFILE
    requires z.owner == y.owner && z.tab == y.tab && Addr(sb, z, i, SlotOf(bn)) == a
    ensures WriteLogs(sb, x, z, i, SlotsFor(bn)) == AllocLogs(sb, x, y, i) + {a}
  {
    hide SlotAddr, MapsOf, EntryNew;
    assert DataOf(sb, z, i, SlotsFor(bn)) == {a};
  }

  lemma {:induction false} ChunkWritten(sb: Super, b0: Blocks, t0: seq<Dinode>, b1: Blocks, t1: seq<Dinode>,
                                        owner: Owner, i: nat, off: nat, src: seq<byte>)
    requires TableShape(sb, b0, t0) && TableOK(sb, b1, t1, owner) && i < |t0| == |t1|
    requires SameFiles(sb, b0, t0, b1, t1) && SlotsGrow(sb, b0, t0, b1, t1, i) && InodeAreaKept(sb, b0, b1)
    requires forall i' | 0 <= i' < |t0| && i' != i :: t1[i'] == t0[i']
    requires off % BSIZE + |src| <= BSIZE && off + |src| <= MAXFILE * BSIZE && 0 < |src|
    requires sb.Data(SlotAddr(b1, t1[i], SlotOf(off / BSIZE)))
    ensures var a := SlotAddr(b1, t1[i], SlotOf(off / BSIZE));
            var b2 := b1[a := Patch(b1[a], off % BSIZE, src)];
            && TableOK(sb, b2, t1, owner) && SlotsGrow(sb, b0, t0, b2, t1, i)
            && SlotAddr(b2, t1[i], SlotOf(off / BSIZE)) == a
            && Spliced(sb, b0, t0, b2, t1, i, off, src)
            && InodeAreaKept(sb, b0, b2) && SlotsKept(sb, b1, t1, b2, t1)
  {
    hide SlotAddr, FileByte, SlotsOwned, OwnersSlot, Mapped, Patch, SlotsGrow;
    var bn := off / BSIZE;
    var a := SlotAddr(b1, t1[i], SlotOf(bn));
    var x := Patch(b1[a], off % BSIZE, src);
    DataWrite(sb, b1, t1, owner, i, bn, x);
    var b2 := b1[a := x];
    GrowKept(sb, b0, t0, b1, t1, b2, i);
    forall k | 0 <= k < MAXFILE * BSIZE
      ensures FileByte(b2, t1[i], k) == if off <= k < off + |src| then src[k - off] else FileByte(b0, t0[i], k)
    {
      assert FileByte(b1, t1[i], k) == FileByte(b0, t0[i], k);
      PatchedByte(b1, t1[i], off, src, k);
    }
    hide SameBytes;
    forall i' | 0 <= i' < |t0| && i' != i ensures SameBytes(b0, t0[i'], b2, t1[i']) {
      SameTwice(b0, b1, b2, t0[i'], t1[i']);
    }
  }

  lemma {:induction false} SameTwice(b0: Blocks, b1: Blocks, b2: Blocks, d0: Dinode, d1: Dinode)
    requires |d0.addrs| == NDIRECT + 1 && d0.addrs[ROOT] < |b0|
    requires |d1.addrs| == NDIRECT + 1 && d1.addrs[ROOT] < |b1| == |b2|
    requires SameBytes(b0, d0, b1, d1) && SameBytes(b1, d1, b2, d1)
    ensures SameBytes(b0, d0, b2, d1)
  {
    hide FileByte;
  }

  /** A byte of the file whose block was patched. */
  lemma {:induction false} PatchedByte(blocks: Blocks, di: Dinode, off: nat, src: seq<byte>, k: nat)
    requires |di.addrs| == NDIRECT + 1 && di.addrs[ROOT] < |blocks| && k < MAXFILE * BSIZE
    requires off % BSIZE + |src| <= BSIZE && off + |src| <= MAXFILE * BSIZE && 0 < |src|
    requires 0 < SlotAddr(blocks, di, SlotOf(off / BSIZE)) < |blocks|
    ensures var x := Patch(blocks[SlotAddr(blocks, di, SlotOf(off / BSIZE))], off % BSIZE, src);
            (if k / BSIZE == off / BSIZE then x[k % BSIZE] else FileByte(blocks, di, k)) ==
            if off <= k < off + |src| then src[k - off] else FileByte(blocks, di, k)
  {
    hide SlotAddr, FileByte, Patch;
    PatchByte(blocks[SlotAddr(blocks, di, SlotOf(off / BSIZE))], off, src, k);
    if k / BSIZE == off / BSIZE {
      FileByteAt(blocks, di, k);
    }
  }

  lemma {:induction false} GrowKept(sb: Super, b0: Blocks, t0: seq<Dinode>, b1: Blocks, t1: seq<Dinode>, b2: Blocks,
                                    i: nat)
    requires TableShape(sb, b0, t0) && TableShape(sb, b1, t1) && TableShape(sb, b2, t1)
    requires SlotsGrow(sb, b0, t0, b1, t1, i) && SlotsKept(sb, b1, t1, b2, t1)
    ensures SlotsGrow(sb, b0, t0, b2, t1, i)
  {
    hide SlotAddr;
  }

  lemma {:induction false} FileByteAt(blocks: Blocks, di: Dinode, k: nat)
    requires |di.addrs| == NDIRECT + 1 && di.addrs[ROOT] < |blocks| && k < MAXFILE * BSIZE
    requires 0 < SlotAddr(blocks, di, SlotOf(k / BSIZE)) < |blocks|
    ensures FileByte(blocks, di, k) == blocks[SlotAddr(blocks, di, SlotOf(k / BSIZE))][k % BSIZE]
  {
  }

  /** `min(n - tot, BSIZE - off % BSIZE)`: the chunk ends with the range or with its block. */
  function ChunkLen(off: nat, left: nat): (m: nat)
    requires left > 0
    ensures 0 < m <= left && off % BSIZE + m <= BSIZE && (m == left || (off + m) % BSIZE == 0)
  {
    if left < BSIZE - off % BSIZE then left else BSIZE - off % BSIZE
  }

  // ---------- writei ----------

  /** Blocks 0.. up to byte len are mapped. */
  ghost predicate MappedTo(blocks: Blocks, di: Dinode, len: nat)
    requires |di.addrs| == NDIRECT + 1 && di.addrs[ROOT] < |blocks|
  {
    forall bn: nat | bn < MAXFILE && bn * BSIZE < len :: SlotAddr(blocks, di, SlotOf(bn)) != 0
  }

  lemma {:induction false} MappedGrows(sb: Super, b0: Blocks, t0: seq<Dinode>, b1: Blocks, t1: seq<Dinode>, i: nat,
                                       len: nat, off: nat, m: nat)
    requires TableShape(sb, b0, t0) && TableShape(sb, b1, t1) && i < |t0|
    requires SlotsGrow(sb, b0, t0, b1, t1, i) && MappedTo(b0, t0[i], len) && off <= len
    requires off / BSIZE < MAXFILE && off % BSIZE + m <= BSIZE && SlotAddr(b1, t1[i], SlotOf(off / BSIZE)) != 0
    ensures MappedTo(b1, t1[i], if len < off + m then off + m else len)
  {
    hide SlotAddr;
    forall bn: nat | bn < MAXFILE && (bn * BSIZE < len || bn * BSIZE < off + m)
      ensures SlotAddr(b1, t1[i], SlotOf(bn)) != 0
    {
      if bn != off / BSIZE {
        assert bn * BSIZE < len;
        assert SlotAddr(b0, t0[i], SlotOf(bn)) != 0;
      }
    }
  }

  lemma {:induction false} MappedBelow(blocks: Blocks, di: Dinode, len: nat, off: nat)
    requires |di.addrs| == NDIRECT + 1 && di.addrs[ROOT] < |blocks|
    requires MappedTo(blocks, di, len) && off < MAXFILE * BSIZE && off <= len
    ensures off < len || off % BSIZE != 0 ==> SlotAddr(blocks, di, SlotOf(off / BSIZE)) != 0
  {
    hide SlotAddr;
    assert off / BSIZE * BSIZE <= off;
  }

  /** The slots of a longer range: those of its next block too. */
  lemma {:induction false} WantedNext(off: nat, tot: nat, m: nat)
    requires m > 0 && (off + tot) % BSIZE + m <= BSIZE
    ensures Wanted(off, tot + m) == Wanted(off, tot) + SlotsFor((off + tot) / BSIZE)
  {
    hide SlotOf;
    assert (off + tot + m - 1) / BSIZE == (off + tot) / BSIZE;
    if tot > 0 {
      var last := (off + tot) / BSIZE;
      assert last == (off + tot - 1) / BSIZE || last == (off + tot - 1) / BSIZE + 1;
      var all, some := DataSlots(off, tot + m), DataSlots(off, tot);
      assert all == some + {SlotOf(last)};
    } else {
      assert DataSlots(off, m) == {SlotOf(off / BSIZE)};
    }
  }

  lemma {:induction false} WantedSlots(off: nat, n: nat)
    requires off + n <= MAXFILE * BSIZE
    ensures forall j | j in Wanted(off, n) :: j < NSLOTS
  {
  }

  lemma {:induction false} WantedWithin(off: nat, n: nat, n': nat)
    requires n <= n'
    ensures Wanted(off, n) <= Wanted(off, n')
  {
    hide SlotOf;
  }

  lemma {:induction false} TooFewMore(sb: Super, x: State, i: nat, v: set<nat>, w: set<nat>)
    requires TableShape(sb, x.blocks, x.tab) && i < |x.tab| && v <= w && TooFew(sb, x, i, v)
    ensures TooFew(sb, x, i, w)
  {
    hide SlotAddr, FreeBlocks;
    Smaller(Missing(sb, x, i, v), Missing(sb, x, i, w));
  }

  /** Every block of the range is mapped already: nothing can be missing. */
  lemma {:induction false} OverwriteEnough(sb: Super, x: State, i: nat, off: nat, n: nat)
    requires Sound(sb, x) && i < |x.tab| && off + n <= x.tab[i].size
    ensures !TooFew(sb, x, i, Wanted(off, n))
  {
    hide SlotAddr, SlotsOwned, OwnersSlot;
    var m := Missing(sb, x, i, Wanted(off, n));
    forall j | j in Wanted(off, n)
      ensures j < NSLOTS && Addr(sb, x, i, j) != 0
    {
      assert Mapped(x.blocks, x.tab[i]);
      var last := (off + n - 1) / BSIZE;
      assert last < MAXFILE && last * BSIZE < x.tab[i].size;
      if j == ROOT {
        RootSlot(sb, x, i, SlotOf(last));
      } else {
        var bn :| off / BSIZE <= bn <= last && j == SlotOf(bn);
        assert bn * BSIZE < x.tab[i].size;
      }
    }
    assert m == {};
  }

  /** Where the loop of writei stands after tot bytes. */
  ghost predicate RangeInv(sb: Super, b0: Blocks, t0: seq<Dinode>, b1: Blocks, t1: seq<Dinode>, i: nat, off0: nat,
                           src: seq<byte>, tot: nat)
  {
    && TableShape(sb, b0, t0) && TableShape(sb, b1, t1) && i < |t0| && tot <= |src|
    && Spliced(sb, b0, t0, b1, t1, i, off0, src[..tot])
    && MappedTo(b1, t1[i], Max(t0[i].size, off0 + tot))
    && InodeAreaKept(sb, b0, b1)
    && (off0 + tot <= t0[i].size ==> t1 == t0)
    && (tot == 0 || tot == |src| || (off0 + tot) % BSIZE == 0)
  }

  function Max(a: nat, b: nat): (m: nat) {
    if a < b then b else a
  }

  lemma {:induction false} RangeStart(sb: Super, b0: Blocks, t0: seq<Dinode>, i: nat, off0: nat, src: seq<byte>)
    requires TableShape(sb, b0, t0) && i < |t0| && off0 <= t0[i].size && MappedTo(b0, t0[i], t0[i].size)
    ensures RangeInv(sb, b0, t0, b0, t0, i, off0, src, 0)
  {
    hide FileByte, SlotAddr;
    assert src[..0] == [];
  }

  lemma {:induction false} RangeStep(sb: Super, b0: Blocks, t0: seq<Dinode>, b1: Blocks, t1: seq<Dinode>,
                                     b2: Blocks, t2: seq<Dinode>,
                                     i: nat, off0: nat, src: seq<byte>, tot: nat, m: nat)
    requires RangeInv(sb, b0, t0, b1, t1, i, off0, src, tot) && TableShape(sb, b2, t2)
    requires 0 < m && tot + m <= |src| && off0 + |src| <= MAXFILE * BSIZE
    requires (off0 + tot) % BSIZE + m <= BSIZE && (tot + m == |src| || (off0 + tot + m) % BSIZE == 0)
    requires Spliced(sb, b1, t1, b2, t2, i, off0 + tot, src[tot..tot + m])
    requires SlotsGrow(sb, b1, t1, b2, t2, i) && SlotAddr(b2, t2[i], SlotOf((off0 + tot) / BSIZE)) != 0
    requires InodeAreaKept(sb, b1, b2)
    requires SlotAddr(b1, t1[i], SlotOf((off0 + tot) / BSIZE)) != 0 ==> t2 == t1
    ensures RangeInv(sb, b0, t0, b2, t2, i, off0, src, tot + m)
  {
    hide SlotAddr, Spliced, SlotsGrow, MappedTo, SlotsOwned;
    SpliceTwice(sb, b0, t0, b1, t1, b2, t2, i, off0, src[..tot], src[tot..tot + m]);
    assert src[..tot] + src[tot..tot + m] == src[..tot + m];
    var len := Max(t0[i].size, off0 + tot);
    MappedBelow(b1, t1[i], len, off0 + tot);
    MappedGrows(sb, b1, t1, b2, t2, i, len, off0 + tot, m);
  }

  /** The loop of writei, over a range that has passed its checks.  It stops short exactly when fewer
      blocks are free than the range lacks. */
  method WriteRange(fs: FileSys, ip: Inode, src: seq<byte>, off0: nat) returns (ok: bool)
    requires fs.Ok() && fs.Locked(ip) && off0 <= ip.size && off0 + |src| <= MAXFILE * BSIZE
    requires MappedTo(fs.blocks, fs.tab[ip.inum], ip.size)
    modifies fs`blocks, fs`tab, fs`owner, fs`live, fs`logged, fs`puts, ip`addrs
    ensures ok <==> !TooFew(fs.sb, old(fs.Image()), ip.inum, Wanted(off0, |src|))
    ensures ok ==> fs.Ok() && fs.Locked(ip) && fs.tab == WithAddrs(old(fs.tab), ip.inum, ip.addrs)
    ensures ok ==> RangeInv(fs.sb, old(fs.blocks), old(fs.tab), fs.blocks, fs.tab, ip.inum, off0, src, |src|)
    ensures ok ==> Grew(fs.sb, old(fs.Image()), fs.Image(), ip.inum, Wanted(off0, |src|))
    ensures ok ==>
      fs.logged == old(fs.logged) + WriteLogs(fs.sb, old(fs.Image()), fs.Image(), ip.inum, Wanted(off0, |src|))
  {
    hide SlotAddr, BitmapOK, SlotsOwned, OwnersSlot, Mapped, SlotsGrow, Spliced, MappedTo, RangeInv, InodeAreaKept,
         ChunkLen, Recorded, Grew, TooFew, WriteLogs, SlotsFor, Wanted;
    var tot, off, n := 0, off0, |src|;
    ghost var sb, b0, t0, i, size, x := fs.sb, fs.blocks, fs.tab, ip.inum, ip.size, fs.Image();
    RangeStart(sb, b0, t0, i, off0, src);
    GrowthStart(sb, x, i, off0);
    while tot < n
      invariant 0 <= tot <= n && off == off0 + tot
      invariant fs.Ok() && fs.Locked(ip) && ip.size == size && fs.tab == WithAddrs(t0, i, ip.addrs)
      invariant RangeInv(sb, b0, t0, fs.blocks, fs.tab, i, off0, src, tot)
      invariant Grew(sb, x, fs.Image(), i, Wanted(off0, tot))
      invariant fs.logged == old(fs.logged) + WriteLogs(sb, x, fs.Image(), i, Wanted(off0, tot))
    {
      ghost var b1, t1, y := fs.blocks, fs.tab, fs.Image();
      RangeMapped(sb, b0, t0, b1, t1, i, off0, src, tot);
      var m := ChunkLen(off, n - tot);
      WantedNext(off0, tot, m);
      StuckSoFar(sb, x, y, i, off0, tot, m, n);
      ok := WriteChunk(fs, ip, off, src[tot..tot + m]);
      if !ok {
        return;
      }
      RangeStep(sb, b0, t0, b1, t1, fs.blocks, fs.tab, i, off0, src, tot, m);
      GrewTwice(sb, x, y, fs.Image(), i, Wanted(off0, tot), SlotsFor(off / BSIZE));
      LogsTwice(sb, x, y, fs.Image(), i, Wanted(off0, tot), SlotsFor(off / BSIZE));
      tot, off := tot + m, off + m;
    }
    EnoughFor(sb, x, fs.Image(), i, Wanted(off0, n));
    ok := true;
  }

  lemma {:induction false} GrowthStart(sb: Super, x: State, i: nat, off: nat)
    requires Sound(sb, x) && i < |x.tab|
    ensures Grew(sb, x, x, i, Wanted(off, 0)) && WriteLogs(sb, x, x, i, Wanted(off, 0)) == {}
  {
    hide SlotAddr, SlotsOwned, OwnersSlot, Mapped, AllocLogs;
    GrewNone(sb, x, i, {});
    AllocNone(sb, x, i);
  }

  /** Too few blocks for the next chunk are too few for the whole range. */
  lemma {:induction false} StuckSoFar(sb: Super, x: State, y: State, i: nat, off: nat, tot: nat, m: nat, n: nat)
    requires Grew(sb, x, y, i, Wanted(off, tot)) && 0 < m && tot + m <= n && off + n <= MAXFILE * BSIZE
    requires Wanted(off, tot + m) == Wanted(off, tot) + SlotsFor((off + tot) / BSIZE)
    ensures TableShape(sb, x.blocks, x.tab) && TableShape(sb, y.blocks, y.tab) && i < |x.tab| == |y.tab|
    ensures TooFew(sb, y, i, SlotsFor((off + tot) / BSIZE)) ==> TooFew(sb, x, i, Wanted(off, n))
  {
    hide Grew, TooFew, Wanted, SlotsFor;
    var next := SlotsFor((off + tot) / BSIZE);
    WantedSlots(off, tot + m);
    GrewShape(sb, x, y, i, Wanted(off, tot));
    TooFewLater(sb, x, y, i, Wanted(off, tot), next);
    WantedWithin(off, tot + m, n);
    if TooFew(sb, y, i, next) {
      TooFewMore(sb, x, i, Wanted(off, tot + m), Wanted(off, n));
    }
  }

  lemma {:induction false} RangeMapped(sb: Super, b0: Blocks, t0: seq<Dinode>, b1: Blocks, t1: seq<Dinode>, i: nat,
                                       off0: nat,
                                       src: seq<byte>, tot: nat)
    requires RangeInv(sb, b0, t0, b1, t1, i, off0, src, tot) && off0 + tot < MAXFILE * BSIZE
    ensures off0 + tot < t0[i].size || (off0 + tot) % BSIZE != 0 ==>
              SlotAddr(b1, t1[i], SlotOf((off0 + tot) / BSIZE)) != 0
    ensures tot == 0 || tot == |src| || (off0 + tot) % BSIZE == 0
  {
    MappedBelow(b1, t1[i], Max(t0[i].size, off0 + tot), off0 + tot);
  }

  /** The flat file c with src written over it from off on. */
  function Overwrite(c: seq<byte>, off: nat, src: seq<byte>): (r: seq<byte>)
    requires off <= |c|
  {
    c[..off] + src + if off + |src| < |c| then c[off + |src|..] else []
  }

  lemma {:induction false} ContentSame(blocks: Blocks, di: Dinode, blocks': Blocks)
    requires |di.addrs| == NDIRECT + 1 && di.addrs[ROOT] < |blocks| && di.addrs[ROOT] < |blocks'|
    requires di.size <= MAXFILE * BSIZE && SameBytes(blocks, di, blocks', di)
    ensures Content(blocks', di) == Content(blocks, di)
  {
    hide FileByte;
  }

  lemma {:induction false} ContentSpliced(sb: Super, b0: Blocks, t0: seq<Dinode>, b1: Blocks, t1: seq<Dinode>,
        i: nat, off: nat, src: seq<byte>)
    requires TableShape(sb, b0, t0) && TableShape(sb, b1, t1) && i < |t0| && off <= t0[i].size
    requires Spliced(sb, b0, t0, b1, t1, i, off, src) && t1[i].size == Max(t0[i].size, off + |src|)
    ensures Content(b1, t1[i]) == Overwrite(Content(b0, t0[i]), off, src)
    ensures OthersKept(sb, b0, t0, b1, t1, i)
  {
    hide FileByte;
    var c := Overwrite(Content(b0, t0[i]), off, src);
    forall k | 0 <= k < t1[i].size ensures Content(b1, t1[i])[k] == c[k] {
    }
    forall i' | 0 <= i' < |t0| && i' != i ensures Content(b1, t1[i']) == Content(b0, t0[i']) {
      ContentSame(b0, t0[i'], b1);
    }
  }

  /** Growing the recorded size over mapped blocks keeps the table sound and every byte in place. */
  lemma {:induction false} Resized(sb: Super, blocks: Blocks, tab: seq<Dinode>, owner: Owner, i: nat, size: uint32)
    requires TableOK(sb, blocks, tab, owner) && i < |tab| && size <= MAXFILE * BSIZE
    requires MappedTo(blocks, tab[i], size)
    ensures TableOK(sb, blocks, tab[i := tab[i].(size := size)], owner)
    ensures SameFiles(sb, blocks, tab, blocks, tab[i := tab[i].(size := size)])
    ensures SlotsKept(sb, blocks, tab, blocks, tab[i := tab[i].(size := size)])
  {
    hide Word;
    var tab' := tab[i := tab[i].(size := size)];
    forall i', j | 0 <= i' < |tab| && 0 <= j < NSLOTS
      ensures SlotAddr(blocks, tab'[i'], j) == SlotAddr(blocks, tab[i'], j)
    {
    }
    hide SlotAddr;
    assert SlotsOwned(sb, blocks, tab', owner) && OwnersSlot(sb, blocks, tab', owner);
    forall i' | 0 <= i' < |tab| ensures Mapped(blocks, tab'[i']) {
      assert Mapped(blocks, tab[i']);
    }
  }

  /** Every file but inode i has the same inode and the same contents. */
  ghost predicate OthersKept(sb: Super, b0: Blocks, t0: seq<Dinode>, b1: Blocks, t1: seq<Dinode>, i: nat) {
    && TableShape(sb, b0, t0) && TableShape(sb, b1, t1)
    && forall k | 0 <= k < |t0| && k != i :: t1[k] == t0[k] && Content(b1, t1[k]) == Content(b0, t0[k])
  }

  lemma {:induction false} OthersKeptTwice(sb: Super, b0: Blocks, t0: seq<Dinode>, b1: Blocks, t1: seq<Dinode>,
        b2: Blocks, t2: seq<Dinode>, i: nat)
    requires OthersKept(sb, b0, t0, b1, t1, i) && OthersKept(sb, b1, t1, b2, t2, i)
    ensures OthersKept(sb, b0, t0, b2, t2, i)
  {
    hide Content;
  }

  datatype WriteResult = Rejected | Panic | Wrote(n: nat)

  /** Writes src at off.  A range that starts past the end, wraps or passes the largest file is
      rejected and nothing changes.  The kernel panics exactly when fewer blocks are free than the
      range lacks.  Otherwise exactly the given bytes are spliced into the flat file, no other file
      changes, exactly the missing blocks are taken, and the disk holds every inode again, although
      iupdate is called only when the size grew. */
  method Writei(fs: FileSys, ip: Inode, src: seq<byte>, off: uint32) returns (r: WriteResult)
    requires fs.Settled() && fs.Locked(ip) && ip.typ != T_DEV && |src| < 0x1_0000_0000
    modifies fs`blocks, fs`tab, fs`owner, fs`live, fs`logged, fs`puts, ip`addrs, ip`size
    ensures r.Rejected? <==> Outside(off, |src|, old(ip.size))
    ensures r.Rejected? ==> unchanged(fs) && unchanged(ip)
    ensures r.Panic? <==>
      !Outside(off, |src|, old(ip.size)) && TooFew(fs.sb, old(fs.Image()), ip.inum, Wanted(off, |src|))
    ensures r.Wrote? ==> r.n == |src| && fs.Settled() && fs.Locked(ip) && |fs.tab| == |old(fs.tab)|
    ensures r.Wrote? ==>
      fs.tab[ip.inum] == old(fs.tab)[ip.inum].(size := Max(old(ip.size), off + |src|), addrs := ip.addrs)
    ensures r.Wrote? ==>
      Content(fs.blocks, fs.tab[ip.inum]) == Overwrite(old(Content(fs.blocks, fs.tab[ip.inum])), off, src)
    ensures r.Wrote? ==> OthersKept(fs.sb, old(fs.blocks), old(fs.tab), fs.blocks, fs.tab, ip.inum)
    ensures r.Wrote? ==> Grew(fs.sb, old(fs.Image()), fs.Image(), ip.inum, Wanted(off, |src|))
    ensures r.Wrote? ==>
      fs.logged == old(fs.logged)
                   + WriteLogs(fs.sb, old(fs.Image()), fs.Image(), ip.inum, Wanted(off, |src|))
                   + (if |src| > 0 && off + |src| > old(ip.size) then {fs.sb.IBlock(ip.inum)} else {})
    ensures r.Wrote? ==> |fs.logged| <= |old(fs.logged)| + DataCost(off, |src|) + 3
  {
    hide SlotAddr, BitmapOK, SlotsOwned, OwnersSlot, Mapped, SlotsGrow, FileByte, MappedTo, DataCost, Content,
         Overwrite, Spliced, SameFiles, OthersKept, Recorded, Grew, TooFew, WriteLogs, Wanted, SlotsKept;
    var n := |src|;
    if off > ip.size || off + n >= 0x1_0000_0000 {
      return Rejected;
    }
    if off + n > MAXFILE * BSIZE {
      return Rejected;
    }
    ghost var sb, b0, t0, i, x := fs.sb, fs.blocks, fs.tab, ip.inum, fs.Image();
    TableMapped(sb, b0, t0, fs.owner, i);
    var ok := WriteRange(fs, ip, src, off);
    if !ok {
      return Panic;
    }
    assert src[..n] == src;
    ghost var b1, t1, y := fs.blocks, fs.tab, fs.Image();
    WriteCost(sb, x, y, i, off, n);
    InodesUntouched(sb, b0, b1, t0);
    if n > 0 && off + n > ip.size {
      Resized(sb, b1, t1, fs.owner, i, off + n);
      ip.size := off + n;
      fs.tab := t1[i := t1[i].(size := off + n)];
      OthersOnDisk(sb, b1, t0, fs.tab, i);
      ghost var t2 := fs.tab;
      Iupdate(fs, ip);
      SplicedSame(sb, b0, t0, b1, t1, fs.blocks, fs.tab, i, off, src);
      SlotsKeptTwice(sb, b1, t1, b1, t2, fs.blocks, t2);
      GrewKept(sb, x, y, fs.Image(), i, Wanted(off, n));
      LogsKept(sb, x, y, fs.Image(), i, Wanted(off, n));
    }
    LogSize(old(fs.logged), WriteLogs(sb, x, fs.Image(), i, Wanted(off, n)), sb.IBlock(i));
    ContentSpliced(sb, b0, t0, fs.blocks, fs.tab, i, off, src);
    r := Wrote(n);
  }

  /** writei's checks: past the end, wrapping, or larger than a file can be. */
  predicate Outside(off: nat, n: nat, size: nat) {
    off > size || off + n >= 0x1_0000_0000 || off + n > MAXFILE * BSIZE
  }

  lemma {:induction false} LogSize(l: set<nat>, w: set<nat>, b: nat)
    ensures |l + w| <= |l| + |w| && |l + w + {b}| <= |l| + |w| + 1
  {
    assert l + w + {} == l + w;
  }

  lemma {:induction false} SlotsKeptTwice(sb: Super, b0: Blocks, t0: seq<Dinode>, b1: Blocks, t1: seq<Dinode>,
                                          b2: Blocks, t2: seq<Dinode>)
    requires TableShape(sb, b0, t0) && TableShape(sb, b1, t1) && TableShape(sb, b2, t2)
    requires SlotsKept(sb, b0, t0, b1, t1) && SlotsKept(sb, b1, t1, b2, t2)
    ensures SlotsKept(sb, b0, t0, b2, t2)
  {
    hide SlotAddr;
  }

  lemma {:induction false} TableMapped(sb: Super, blocks: Blocks, tab: seq<Dinode>, owner: Owner, i: nat)
    requires TableOK(sb, blocks, tab, owner) && i < |tab|
    ensures MappedTo(blocks, tab[i], tab[i].size)
  {
    hide SlotAddr;
    assert Mapped(blocks, tab[i]);
  }

  lemma {:induction false} OthersOnDisk(sb: Super, blocks: Blocks, t0: seq<Dinode>, t1: seq<Dinode>, i: nat)
    requires OnDisk(sb, blocks, t0) && |t1| == |t0|
    requires forall k | 0 <= k < |t0| && k != i :: t1[k] == t0[k]
    ensures forall k | 0 <= k < |t1| && k != i :: DiskInodeIs(sb, blocks, k, t1[k])
  {
    hide DiskInodeIs;
  }

  lemma {:induction false} SplicedSame(sb: Super, b0: Blocks, t0: seq<Dinode>, b1: Blocks, t1: seq<Dinode>,
                                       b2: Blocks, t2: seq<Dinode>,
                                       i: nat, off: nat, src: seq<byte>)
    requires TableShape(sb, b0, t0) && TableShape(sb, b1, t1) && TableShape(sb, b2, t2) && i < |t0|
    requires Spliced(sb, b0, t0, b1, t1, i, off, src)
    requires t2 == t1[i := t1[i].(size := t2[i].size)]
    requires SameFiles(sb, b1, t1, b1, t2) && SameFiles(sb, b1, t2, b2, t2)
    ensures Spliced(sb, b0, t0, b2, t2, i, off, src)
  {
    hide FileByte;
    assert SameBytes(b1, t1[i], b1, t2[i]) && SameBytes(b1, t2[i], b2, t2[i]);
    forall i' | 0 <= i' < |t0| && i' != i ensures SameBytes(b0, t0[i'], b2, t2[i']) {
      assert SameBytes(b0, t0[i'], b1, t1[i']) && SameBytes(b1, t2[i'], b2, t2[i']);
    }
  }

  // ---------- readi ----------

  lemma {:induction false} ReadChunk(blocks: Blocks, di: Dinode, off: nat, m: nat)
    requires |di.addrs| == NDIRECT + 1 && di.addrs[ROOT] < |blocks| && di.size <= MAXFILE * BSIZE
    requires 0 < m && off + m <= di.size && off % BSIZE + m <= BSIZE
    requires 0 < SlotAddr(blocks, di, SlotOf(off / BSIZE)) < |blocks|
    ensures Content(blocks, di)[off..off + m] ==
            blocks[SlotAddr(blocks, di, SlotOf(off / BSIZE))][off % BSIZE..off % BSIZE + m]
  {
    hide SlotAddr;
    forall k | off <= k < off + m
      ensures Content(blocks, di)[k] == blocks[SlotAddr(blocks, di, SlotOf(off / BSIZE))][off % BSIZE + k - off]
    {
      assert k / BSIZE == off / BSIZE && k % BSIZE == off % BSIZE + k - off;
      FileByteAt(blocks, di, k);
    }
  }

  lemma {:induction false} MappedEnough(sb: Super, x: State, i: nat, bn: nat)
    requires Sound(sb, x) && i < |x.tab| && bn < MAXFILE && Addr(sb, x, i, SlotOf(bn)) != 0
    ensures !TooFew(sb, x, i, SlotsFor(bn))
  {
    hide SlotAddr, SlotsOwned, OwnersSlot, Mapped;
    if bn >= NDIRECT {
      RootSlot(sb, x, i, SlotOf(bn));
    }
    assert Missing(sb, x, i, SlotsFor(bn)) == {};
  }

  /** The bytes from off, clipped to the file; None is the error return.  Every block below the
      size is mapped, so reading never allocates. */
  method Readi(fs: FileSys, ip: Inode, off: uint32, n: uint32) returns (r: Option<seq<byte>>)
    requires fs.Settled() && fs.Locked(ip) && ip.typ != T_DEV
    modifies fs`blocks, fs`tab, fs`owner, fs`live, fs`logged, fs`puts, ip`addrs
    ensures unchanged(fs) && unchanged(ip)
    ensures r.None? <==> off > ip.size || off + n >= 0x1_0000_0000
    ensures r.Some? ==>
      r.value == Content(fs.blocks, fs.tab[ip.inum])[off..if off + n > ip.size then ip.size else off + n]
  {
    hide SlotAddr, BitmapOK, SlotsOwned, OwnersSlot, Mapped, SlotsGrow, FileByte, MappedTo, Content, ChunkLen, Recorded,
         Grew, TooFew, AllocLogs, SlotsFor;
    if off > ip.size || off as int + n as int >= 0x1_0000_0000 {
      return None;
    }
    var want: nat := if off as int + n as int > ip.size then ip.size - off else n;
    var tot, o: nat := 0, off;
    var dst: seq<byte> := [];
    ghost var di := fs.tab[ip.inum];
    ghost var c := Content(fs.blocks, di);
    TableMapped(fs.sb, fs.blocks, fs.tab, fs.owner, ip.inum);
    while tot < want
      invariant 0 <= tot <= want && o == off + tot
      invariant unchanged(fs) && unchanged(ip)
      invariant dst == c[off..o]
    {
      MappedBelow(fs.blocks, di, ip.size, o);
      MappedEnough(fs.sb, fs.Image(), ip.inum, o / BSIZE);
      var a := Bmap(fs, ip, o / BSIZE);
      var bp := fs.blocks[a.value];
      var m := ChunkLen(o, want - tot);
      ReadChunk(fs.blocks, di, o, m);
      assert c[off..o + m] == c[off..o] + c[o..o + m];
      dst := dst + bp[o % BSIZE..o % BSIZE + m];
      tot, o := tot + m, o + m;
    }
    r := Some(dst);
  }
}
