/** filewrite of file.c: a long write is cut into transactions small enough for the log, and
    together they are one splice of the flat file. */
module FileWrite {
  import opened Bytes
  import opened FsLayout
  import opened FsGrowth
  import opened FsInode
  import opened FsBlocks
  import opened FsMap
  import opened FsFile
  import Sectors
  import RedoLog

  /** An open file (struct file) over a locked inode. */
  class File {
    const ip: Inode
    var off: uint32

    constructor (ip: Inode, off: uint32)
      ensures this.ip == ip && this.off == off
    {
      this.ip, this.off := ip, off;
    }
  }

  /** `((MAXOPBLOCKS-1-1-2) / 2) * 512` */
  const CHUNK := ((RedoLog.MAXOPBLOCKS - 1 - 1 - 2) / 2) * 512

  /** A chunk of at most CHUNK bytes never logs more blocks than begin_op reserves, whatever the
      alignment and whatever the size of the file system. */
  lemma {:induction false} ChunkFits(off: nat, n: nat)
    requires n <= CHUNK
    ensures DataCost(off, n) + 3 <= RedoLog.MAXOPBLOCKS
  {
    if n > 0 {
      SpanBound(off, n);
    }
  }

  lemma {:induction false} SpanBound(off: nat, n: nat)
    requires 0 < n <= CHUNK
    ensures Span(off, n) <= if off % BSIZE == 0 then 3 else 4
  {
    assert off == BSIZE * (off / BSIZE) + off % BSIZE;
  }

  lemma {:induction false} OverwriteTwice(c: seq<byte>, off: nat, s1: seq<byte>, s2: seq<byte>)
    requires off <= |c|
    ensures off + |s1| <= |Overwrite(c, off, s1)|
    ensures Overwrite(Overwrite(c, off, s1), off + |s1|, s2) == Overwrite(c, off, s1 + s2)
  {
    var c1 := Overwrite(c, off, s1);
    assert c1[..off + |s1|] == c[..off] + s1;
  }

  /** How many of n bytes filewrite writes at off: all of them, or the chunks that fit in a file. */
  function Accepts(off: nat, size: nat, n: nat): (a: nat)
    ensures a <= n
  {
    if off > size then 0
    else if off + n <= MAXFILE * BSIZE then n
    else if off > MAXFILE * BSIZE then 0
    else CHUNK * ((MAXFILE * BSIZE - off) / CHUNK)
  }

  /** The flat file c after the first n bytes of src were written at off, if off is not past its end. */
  ghost function Written(c: seq<byte>, off: nat, src: seq<byte>, n: nat): (r: seq<byte>)
    requires n <= |src|
  {
    if off <= |c| then Overwrite(c, off, src[..n]) else c
  }

  // ---------- the transactions of a write ----------

  /** One transaction: its block writes, the file system after it, and the bytes written by then. */
  datatype Txn = Txn(puts: seq<Sectors.Write<Block>>, after: State, done: nat)

  /** The file system before transaction k. */
  ghost function Before(x: State, txns: seq<Txn>, k: nat): (r: State)
    requires k <= |txns|
  {
    if k == 0 then x else txns[k - 1].after
  }

  /** A whole file system: sound block lists, an exact free map, and every inode on the disk. */
  ghost predicate Consistent(sb: Super, x: State) {
    TableOK(sb, x.blocks, x.tab, x.owner) && BitmapOK(sb, x.blocks, x.owner.Keys) && OnDisk(sb, x.blocks, x.tab)
  }

  /** y is consistent and is x with the first n bytes of src in file i and every other file kept. */
  ghost predicate Holds(sb: Super, x: State, y: State, i: nat, off: nat, src: seq<byte>, n: nat) {
    && Consistent(sb, y) && OthersKept(sb, x.blocks, x.tab, y.blocks, y.tab, i) && i < |x.tab| == |y.tab| && n <= |src|
    && Content(y.blocks, y.tab[i]) == Written(Content(x.blocks, x.tab[i]), off, src, n)
  }

  /** The block writes of t lead from y to its end, and begin_op has room for them. */
  ghost predicate Fits(sb: Super, y: State, t: Txn) {
    && Recorded(sb, y.blocks, t.puts, t.after.blocks, Touched(t.puts))
    && |Touched(t.puts)| <= RedoLog.MAXOPBLOCKS
  }

  function Min(a: nat, b: nat): (m: nat) {
    if a < b then a else b
  }

  /** Transaction k follows the ones before it within the budget of begin_op, and the file system
      after it is consistent and holds the chunks written so far. */
  ghost predicate TxnOK(sb: Super, x: State, txns: seq<Txn>, i: nat, off: nat, src: seq<byte>, n: nat, k: nat) {
    && k < |txns|
    && Fits(sb, Before(x, txns, k), txns[k])
    && Holds(sb, x, txns[k].after, i, off, src, txns[k].done)
    && txns[k].done == Min(CHUNK * (k + 1), n)
  }

  ghost predicate Transacted(sb: Super, x: State, txns: seq<Txn>, i: nat, off: nat, src: seq<byte>, n: nat) {
    forall k | 0 <= k < |txns| :: TxnOK(sb, x, txns, i, off, src, n, k)
  }

  lemma {:induction false} TransactedMore(sb: Super, x: State, txns: seq<Txn>, i: nat, off: nat, src: seq<byte>,
                                          n: nat, t: Txn)
    requires Transacted(sb, x, txns, i, off, src, n)
    requires Fits(sb, Before(x, txns, |txns|), t) && Holds(sb, x, t.after, i, off, src, t.done)
    requires t.done == Min(CHUNK * (|txns| + 1), n)
    ensures Transacted(sb, x, txns + [t], i, off, src, n)
  {
    hide Fits, Holds;
    var txns' := txns + [t];
    forall k | 0 <= k < |txns'|
      ensures TxnOK(sb, x, txns', i, off, src, n, k)
    {
      assert k < |txns| ==> TxnOK(sb, x, txns, i, off, src, n, k);
      assert Before(x, txns', k) == Before(x, txns, k);
    }
  }

  // ---------- filewrite ----------

  /** One transaction of filewrite: bytes i to i + n1 of src.  x is the file system before the call. */
  method WriteTxn(fs: FileSys, f: File, src: seq<byte>, i: nat, n1: nat, ghost x: State) returns (w: WriteResult)
    requires fs.Settled() && fs.Locked(f.ip) && f.ip.typ != T_DEV
    requires 0 < n1 <= CHUNK && i + n1 <= |src| < 0x8000_0000 && i <= f.off
    requires Holds(fs.sb, x, fs.Image(), f.ip.inum, f.off - i, src, i)
    requires Grew(fs.sb, x, fs.Image(), f.ip.inum, Wanted(f.off - i, i))
    modifies fs, f.ip`addrs, f.ip`size, f`off
    ensures w.Rejected? <==> Outside(old(f.off), n1, old(f.ip.size))
    ensures w.Panic? <==> !w.Rejected? && TooFew(fs.sb, old(fs.Image()), f.ip.inum, Wanted(old(f.off), n1))
    ensures !w.Panic? ==> fs.Settled() && fs.Locked(f.ip) && f.ip.typ == old(f.ip.typ)
    ensures w.Rejected? ==> fs.Image() == old(fs.Image()) && f.off == old(f.off) && f.ip.size == old(f.ip.size)
    ensures w.Rejected? ==> Fits(fs.sb, old(fs.Image()), Txn(fs.puts, fs.Image(), i))
    ensures w.Wrote? ==> w.n == n1 && f.off == old(f.off) + n1 <= f.ip.size
    ensures w.Wrote? ==> Fits(fs.sb, old(fs.Image()), Txn(fs.puts, fs.Image(), i + n1))
    ensures w.Wrote? ==> Holds(fs.sb, x, fs.Image(), f.ip.inum, old(f.off) - i, src, i + n1)
    ensures w.Wrote? ==> Grew(fs.sb, x, fs.Image(), f.ip.inum, Wanted(old(f.off) - i, i + n1))
  {
    hide SlotAddr, SlotsOwned, OwnersSlot, Mapped, BitmapOK, OnDisk, Content, Overwrite, DataCost, OthersKept, Recorded,
         Grew, TooFew, WriteLogs, Wanted, Fits, Holds;
    fs.BeginOp();
    ghost var y, off := fs.Image(), f.off;
    EmptyFits(fs.sb, y, i);
    w := Writei(fs, f.ip, src[i..i + n1], f.off);
    if w.Wrote? {
      ChunkDone(fs.sb, x, y, fs.Image(), f.ip.inum, off - i, src, i, n1);
      ChunkFits(off, n1);
      RecordedFits(fs.sb, y, fs.Image(), fs.puts, fs.logged, i + n1);
      f.off := f.off + w.n;
    }
  }

  datatype FileWriteResult = WritePanic | Failed | WroteAll

  /** Writes src at the file's offset in transactions of at most CHUNK bytes.  It writes what Accepts
      says, no more and no less, unless fewer blocks are free than that lacks: then, and only then,
      the kernel panics.  `txns` lists the transactions that were completed. */
  method Filewrite(fs: FileSys, f: File, src: seq<byte>) returns (r: FileWriteResult, done: nat, ghost txns: seq<Txn>)
    requires fs.Settled() && fs.Locked(f.ip) && f.ip.typ != T_DEV && |src| < 0x8000_0000
    modifies fs, f.ip`addrs, f.ip`size, f`off
    ensures r.WritePanic? <==>
      TooFew(fs.sb, old(fs.Image()), f.ip.inum, Wanted(old(f.off), Accepts(old(f.off), old(f.ip.size), |src|)))
    ensures Transacted(fs.sb, old(fs.Image()), txns, f.ip.inum, old(f.off), src, Accepts(old(f.off), old(f.ip.size), |src|))
    ensures !r.WritePanic? ==> fs.Settled() && fs.Locked(f.ip)
    ensures !r.WritePanic? ==> done == Accepts(old(f.off), old(f.ip.size), |src|) && f.off == old(f.off) + done
    ensures !r.WritePanic? ==> (r.WroteAll? <==> done == |src|)
    ensures !r.WritePanic? ==> Holds(fs.sb, old(fs.Image()), fs.Image(), f.ip.inum, old(f.off), src, done)
    ensures !r.WritePanic? ==> Grew(fs.sb, old(fs.Image()), fs.Image(), f.ip.inum, Wanted(old(f.off), done))
    ensures !r.WritePanic? ==> fs.Image() == Before(old(fs.Image()), txns, |txns|)
  {
    hide SlotAddr, SlotsOwned, OwnersSlot, Mapped, BitmapOK, OnDisk, Content, Overwrite, DataCost, OthersKept, Recorded,
         Grew, TooFew, WriteLogs, Wanted, Transacted, Fits, Holds, Accepts, Outside, Min, TableOK;
    var i, n := 0, |src|;
    txns := [];
    ghost var sb, x, off0, size0, inum := fs.sb, fs.Image(), f.off, f.ip.size, f.ip.inum;
    ghost var a := Accepts(off0, size0, n);
    HoldsStart(sb, x, inum, off0, src);
    TableSizes(sb, x);
    assert Transacted(sb, x, [], inum, off0, src, a) by {
      TransactedNone(sb, x, inum, off0, src, a);
    }
    while i < n
      invariant 0 <= i <= a && f.off == off0 + i && (i == n || i == CHUNK * |txns|)
      invariant fs.Settled() && fs.Locked(f.ip) && f.ip.typ != T_DEV
      invariant if i == 0 then f.ip.size == size0 else off0 + i <= f.ip.size
      invariant Holds(sb, x, fs.Image(), inum, off0, src, i) && Grew(sb, x, fs.Image(), inum, Wanted(off0, i))
      invariant fs.Image() == Before(x, txns, |txns|) && Transacted(sb, x, txns, inum, off0, src, a)
    {
      var n1 := if n - i > CHUNK then CHUNK else n - i;
      ghost var y := fs.Image();
      TableSizes(sb, y);
      AcceptsChunk(off0, size0, n, i, |txns|, f.ip.size, n1);
      var w := WriteTxn(fs, f, src, i, n1, x);
      match w {
        case Panic =>
          ChunkStuck(sb, x, y, inum, off0, i, n1, a);
          return WritePanic, i, txns;
        case Rejected =>
          TransactedMore(sb, x, txns, inum, off0, src, a, Txn(fs.puts, y, i));
          EnoughFor(sb, x, y, inum, Wanted(off0, i));
          return Failed, i, txns + [Txn(fs.puts, y, i)];
        case Wrote(m) =>
          i := i + m;
          TransactedMore(sb, x, txns, inum, off0, src, a, Txn(fs.puts, fs.Image(), i));
          txns := txns + [Txn(fs.puts, fs.Image(), i)];
      }
    }
    EnoughFor(sb, x, fs.Image(), inum, Wanted(off0, n));
    return WroteAll, n, txns;
  }

  lemma {:induction false} OverwriteNone(c: seq<byte>, off: nat)
    ensures off <= |c| ==> Overwrite(c, off, []) == c
  {
    if off <= |c| {
      assert c[..off] + [] == c[..off];
      assert c[..off] + c[off..] == c;
    }
  }

  lemma {:induction false} HoldsStart(sb: Super, x: State, i: nat, off: nat, src: seq<byte>)
    requires Consistent(sb, x) && i < |x.tab|
    ensures Holds(sb, x, x, i, off, src, 0) && Grew(sb, x, x, i, Wanted(off, 0))
  {
    hide SlotAddr, SlotsOwned, OwnersSlot, Mapped, BitmapOK, OnDisk, Content, Overwrite;
    OverwriteNone(Content(x.blocks, x.tab[i]), off);
    assert src[..0] == [];
    GrowthStart(sb, x, i, off);
  }

  lemma {:induction false} TableSizes(sb: Super, x: State)
    requires Sound(sb, x)
    ensures TableShape(sb, x.blocks, x.tab) && forall i | 0 <= i < |x.tab| :: x.tab[i].size <= MAXFILE * BSIZE
  {
  }

  lemma {:induction false} TransactedNone(sb: Super, x: State, i: nat, off: nat, src: seq<byte>, n: nat)
    ensures Transacted(sb, x, [], i, off, src, n)
  {
  }

  /** After k full chunks the next one is accepted, or nothing more is. */
  lemma {:induction false} AcceptsChunk(off: nat, size0: nat, n: nat, i: nat, k: nat, size: nat, n1: nat)
    requires i < n < 0x8000_0000 && i == CHUNK * k && i <= Accepts(off, size0, n) && size0 <= MAXFILE * BSIZE
    requires (if i == 0 then size == size0 else off + i <= size) && n1 == if n - i > CHUNK then CHUNK else n - i
    ensures var a := Accepts(off, size0, n);
            && (Outside(off + i, n1, size) ==> a == i == Min(CHUNK * (k + 1), a))
            && (!Outside(off + i, n1, size) ==>
                  && i + n1 <= a && i + n1 == Min(CHUNK * (k + 1), a)
                  && off + i <= size && off + i + n1 <= MAXFILE * BSIZE)
  {
    var room := MAXFILE * BSIZE - off;
    if off <= size0 && off + n > MAXFILE * BSIZE {
      WholeChunks(k, room, room / CHUNK);
    }
  }

  lemma {:induction false} WholeChunks(k: nat, room: nat, q: nat)
    requires q == room / CHUNK
    ensures CHUNK * q <= room && (k <= q <==> CHUNK * k <= room) && (k < q <==> CHUNK * (k + 1) <= room)
    ensures CHUNK * (k + 1) == CHUNK * k + CHUNK && (k <= q ==> CHUNK * k <= CHUNK * q)
    ensures k <= q <==> CHUNK * k <= CHUNK * q
  {
    assert CHUNK == 1536;
  }

  lemma {:induction false} EmptyFits(sb: Super, y: State, n: nat)
    ensures Fits(sb, y, Txn([], y, n))
  {
    RecordedNone(sb, y.blocks);
  }

  lemma {:induction false} RecordedFits(sb: Super, y: State, z: State, puts: seq<Sectors.Write<Block>>,
                                        logged: set<nat>, n: nat)
    requires Recorded(sb, y.blocks, puts, z.blocks, logged) && |logged| <= RedoLog.MAXOPBLOCKS
    ensures Fits(sb, y, Txn(puts, z, n))
  {
  }

  lemma {:induction false} WantedJoin(off: nat, k: nat, m: nat)
    requires m > 0
    ensures Wanted(off, k + m) == Wanted(off, k) + Wanted(off + k, m)
  {
    hide SlotOf;
    if k > 0 {
      var lo, hi := (off + k - 1) / BSIZE, (off + k) / BSIZE;
      assert hi == lo || hi == lo + 1;
      var all, l, r := DataSlots(off, k + m), DataSlots(off, k), DataSlots(off + k, m);
      assert all == l + r;
    }
  }

  /** One more chunk: the flat file and the blocks taken compose. */
  lemma {:induction false} ChunkDone(sb: Super, x: State, y: State, z: State, i: nat, off: nat, src: seq<byte>,
                                     k: nat, m: nat)
    requires Holds(sb, x, y, i, off, src, k) && Consistent(sb, z) && OthersKept(sb, y.blocks, y.tab, z.blocks, z.tab, i)
    requires Grew(sb, x, y, i, Wanted(off, k)) && Grew(sb, y, z, i, Wanted(off + k, m)) && |z.tab| == |y.tab|
    requires 0 < m && k + m <= |src| && off + k <= |Content(y.blocks, y.tab[i])|
    requires Content(z.blocks, z.tab[i]) == Overwrite(Content(y.blocks, y.tab[i]), off + k, src[k..k + m])
    ensures Holds(sb, x, z, i, off, src, k + m) && Grew(sb, x, z, i, Wanted(off, k + m))
  {
    hide SlotAddr, SlotsOwned, OwnersSlot, Mapped, BitmapOK, OnDisk, Content, Overwrite, OthersKept, Grew, Wanted;
    GrewShape(sb, x, y, i, Wanted(off, k));
    var c := Content(x.blocks, x.tab[i]);
    OverwriteTwice(c, off, src[..k], src[k..k + m]);
    assert src[..k] + src[k..k + m] == src[..k + m];
    OthersKeptTwice(sb, x.blocks, x.tab, y.blocks, y.tab, z.blocks, z.tab, i);
    WantedJoin(off, k, m);
    GrewTwice(sb, x, y, z, i, Wanted(off, k), Wanted(off + k, m));
  }

  lemma {:induction false} ChunkStuck(sb: Super, x: State, y: State, i: nat, off: nat, k: nat, m: nat, n: nat)
    requires Grew(sb, x, y, i, Wanted(off, k)) && 0 < m && k + m <= n && off + k + m <= MAXFILE * BSIZE
    requires TableShape(sb, y.blocks, y.tab) && i < |y.tab| && TooFew(sb, y, i, Wanted(off + k, m))
    ensures TableShape(sb, x.blocks, x.tab) && i < |x.tab| && TooFew(sb, x, i, Wanted(off, n))
  {
    hide Grew, TooFew, Wanted;
    GrewShape(sb, x, y, i, Wanted(off, k));
    WantedSlots(off + k, m);
    TooFewLater(sb, x, y, i, Wanted(off, k), Wanted(off + k, m));
    WantedJoin(off, k, m);
    WantedWithin(off, k + m, n);
    TooFewMore(sb, x, i, Wanted(off, k + m), Wanted(off, n));
  }
}
