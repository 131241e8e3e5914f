/** filewrite over the log: cut the power at any sector write of any run that executes its
    transactions, recover, and the disk is a consistent file system that holds the first chunks. */
module WriteCrash {
  import opened Bytes
  import opened Sectors
  import opened RedoLog
  import opened LogProtocol
  import opened FsLayout
  import opened FsGrowth
  import opened FsInode
  import opened FsBlocks
  import opened FsFile
  import opened FileWrite

  // ---------- the history a write leaves ----------

  ghost function Puts(op: nat, puts: seq<Write<Block>>): (h: seq<Event>) {
    seq(|puts|, j requires 0 <= j < |puts| => Put(op, puts[j].block, puts[j].data))
  }

  /** begin_op and log_write calls without an end_op. */
  ghost function Started(op: nat, puts: seq<Write<Block>>): (h: seq<Event>) {
    [Begin(op)] + Puts(op, puts)
  }

  /** The events of the first n transactions, in order; transaction k runs as operation ids[k]. */
  ghost function Script(ids: seq<nat>, txns: seq<Txn>, n: nat): (h: seq<Event>)
    requires n <= |ids| && n <= |txns|
  {
    if n == 0 then [] else Script(ids, txns, n - 1) + Started(ids[n - 1], txns[n - 1].puts) + [End(ids[n - 1])]
  }

  lemma {:induction false} OpenThrough(h: seq<Event>, op: nat, puts: seq<Write<Block>>)
    ensures op in Open(h + Started(op, puts))
  {
    var all := h + Started(op, puts);
    if puts == [] {
      assert all[..|all| - 1] == h;
    } else {
      assert all[..|all| - 1] == h + Started(op, puts[..|puts| - 1]);
      OpenThrough(h, op, puts[..|puts| - 1]);
    }
  }

  /** A history that stops inside an operation has it open, so the operations of a history with none
      open are the first few transactions, whole. */
  lemma {:induction false} Boundary(ids: seq<nat>, txns: seq<Txn>, n: nat, op: nat, puts: seq<Write<Block>>,
                                    h: seq<Event>) returns (k: nat)
    requires n <= |ids| && n <= |txns| && Open(h) == {}
    requires h <= Script(ids, txns, n) + Started(op, puts)
    ensures k <= n && h == Script(ids, txns, k)
  {
    var s := Script(ids, txns, n);
    if |h| <= |s| {
      if h == s {
        k := n;
      } else {
        assert h <= s[..|s| - 1];
        assert s[..|s| - 1] == Script(ids, txns, n - 1) + Started(ids[n - 1], txns[n - 1].puts);
        k := Boundary(ids, txns, n - 1, ids[n - 1], txns[n - 1].puts, h);
      }
    } else {
      var m := |h| - |s| - 1;
      assert h == s + Started(op, puts[..m]);
      OpenThrough(s, op, puts[..m]);
      assert false;
    }
  }

  /** Replaying an operation applies its writes. */
  lemma {:induction false} ReplayStarted(init: Disk, h: seq<Event>, op: nat, puts: seq<Write<Block>>, mid: Blocks,
                                         b: nat)
    requires |mid| == |init| && b < |init| && Replay(init, h, b) == mid[b] && InDisk(mid, puts)
    ensures Replay(init, h + Started(op, puts), b) == Apply(mid, puts)[b]
  {
    var all := h + Started(op, puts);
    if puts == [] {
      assert all[..|all| - 1] == h;
    } else {
      assert all[..|all| - 1] == h + Started(op, puts[..|puts| - 1]);
      ReplayStarted(init, h, op, puts[..|puts| - 1], mid, b);
    }
  }

  ghost predicate AllFit(sb: Super, x: State, txns: seq<Txn>) {
    forall k | 0 <= k < |txns| :: Fit(sb, x, txns, k)
  }

  ghost predicate Fit(sb: Super, x: State, txns: seq<Txn>, k: nat) {
    k < |txns| && Fits(sb, Before(x, txns, k), txns[k])
  }

  lemma {:induction false} ScriptReplays(sb: Super, x: State, ids: seq<nat>, txns: seq<Txn>, n: nat, b: nat)
    requires n <= |ids| && n <= |txns| && b < |x.blocks| && AllFit(sb, x, txns)
    ensures |Before(x, txns, n).blocks| == |x.blocks|
    ensures Replay(x.blocks, Script(ids, txns, n), b) == Before(x, txns, n).blocks[b]
  {
    if n > 0 {
      ScriptReplays(sb, x, ids, txns, n - 1, b);
      assert Fit(sb, x, txns, n - 1);
      var h := Script(ids, txns, n - 1);
      var mid := Before(x, txns, n - 1).blocks;
      ReplayStarted(x.blocks, h, ids[n - 1], txns[n - 1].puts, mid, b);
      var s := Script(ids, txns, n);
      assert s[..|s| - 1] == h + Started(ids[n - 1], txns[n - 1].puts);
    }
  }

  // ---------- only blocks behind the log matter ----------

  ghost predicate Agree(sb: Super, blocks: Blocks, blocks': Blocks) {
    |blocks'| == |blocks| && forall c | sb.inodestart <= c < |blocks| :: blocks'[c] == blocks[c]
  }

  lemma {:induction false} AgreeSlots(sb: Super, blocks: Blocks, blocks': Blocks, tab: seq<Dinode>)
    requires TableShape(sb, blocks, tab) && Agree(sb, blocks, blocks')
    ensures TableShape(sb, blocks', tab) && SlotsKept(sb, blocks, tab, blocks', tab)
  {
    hide Word;
  }

  lemma {:induction false} AgreeTable(sb: Super, blocks: Blocks, blocks': Blocks, tab: seq<Dinode>, owner: Owner)
    requires TableOK(sb, blocks, tab, owner) && Agree(sb, blocks, blocks')
    ensures TableOK(sb, blocks', tab, owner)
  {
    hide SlotAddr;
    AgreeSlots(sb, blocks, blocks', tab);
    forall i | 0 <= i < |tab|
      ensures Mapped(blocks', tab[i])
    {
      assert Mapped(blocks, tab[i]);
    }
  }

  lemma {:induction false} AgreeContent(sb: Super, blocks: Blocks, blocks': Blocks, tab: seq<Dinode>, owner: Owner,
                                        i: nat)
    requires TableOK(sb, blocks, tab, owner) && Agree(sb, blocks, blocks') && i < |tab|
    ensures Content(blocks', tab[i]) == Content(blocks, tab[i])
  {
    hide SlotAddr, Mapped, FileByte, SlotsOwned, OwnersSlot;
    AgreeSlots(sb, blocks, blocks', tab);
    forall k | 0 <= k < MAXFILE * BSIZE
      ensures FileByte(blocks', tab[i], k) == FileByte(blocks, tab[i], k)
    {
      AgreeByte(sb, blocks, blocks', tab, owner, i, k);
    }
    ContentSame(blocks, tab[i], blocks');
  }

  lemma {:induction false} AgreeByte(sb: Super, blocks: Blocks, blocks': Blocks, tab: seq<Dinode>, owner: Owner,
                                     i: nat, k: nat)
    requires TableOK(sb, blocks, tab, owner) && Agree(sb, blocks, blocks') && i < |tab| && k < MAXFILE * BSIZE
    ensures FileByte(blocks', tab[i], k) == FileByte(blocks, tab[i], k)
  {
    hide SlotAddr, Mapped;
    AgreeSlots(sb, blocks, blocks', tab);
    var a := SlotAddr(blocks, tab[i], SlotOf(k / BSIZE));
    assert a != 0 ==> a in owner && sb.Data(a);
  }

  lemma {:induction false} AgreeBitmap(sb: Super, blocks: Blocks, blocks': Blocks, live: set<nat>)
    requires BitmapOK(sb, blocks, live) && Agree(sb, blocks, blocks')
    ensures BitmapOK(sb, blocks', live)
  {
    hide Bit;
    forall b | 0 <= b < sb.size
      ensures InUse(sb, blocks', b) <==> b < sb.datastart || b in live
    {
      BBlockBelow(sb, b);
      assert InUse(sb, blocks, b) <==> b < sb.datastart || b in live;
    }
  }

  lemma {:induction false} AgreeInodes(sb: Super, blocks: Blocks, blocks': Blocks, tab: seq<Dinode>)
    requires OnDisk(sb, blocks, tab) && Agree(sb, blocks, blocks')
    ensures OnDisk(sb, blocks', tab)
  {
    hide Load;
    forall i | 0 <= i < |tab|
      ensures DiskInodeIs(sb, blocks', i, tab[i])
    {
      IBlockBelow(sb, i);
      assert DiskInodeIs(sb, blocks, i, tab[i]);
    }
  }

  lemma {:induction false} AgreeHolds(sb: Super, x: State, y: State, d: Blocks, i: nat, off: nat, src: seq<byte>, n: nat)
    requires Holds(sb, x, y, i, off, src, n) && Agree(sb, y.blocks, d)
    ensures Holds(sb, x, State(d, y.tab, y.owner), i, off, src, n)
  {
    hide SlotsOwned, OwnersSlot, Mapped, BitmapOK, OnDisk, Content, Agree, Written;
    AgreeTable(sb, y.blocks, d, y.tab, y.owner);
    AgreeBitmap(sb, y.blocks, d, y.owner.Keys);
    AgreeInodes(sb, y.blocks, d, y.tab);
    forall k | 0 <= k < |y.tab|
      ensures Content(d, y.tab[k]) == Content(y.blocks, y.tab[k])
    {
      AgreeContent(sb, y.blocks, d, y.tab, y.owner, k);
    }
  }

  // ---------- the theorem ----------

  /** The log lies in front of the inodes of a device of that size. */
  ghost predicate LogBefore(g: Geometry, sb: Super) {
    g.total == sb.size && g.start + g.size <= sb.inodestart
  }

  ghost function Recovered(g: Geometry, d: Disk): (r: Disk)
    requires GoodDisk(g, d)
  {
    Apply(d, RecoverWrites(g, d))
  }

  lemma {:induction false} HoldsBefore(sb: Super, x: State, txns: seq<Txn>, f: nat, off: nat, src: seq<byte>, n: nat,
                                       k: nat)
    requires Consistent(sb, x) && f < |x.tab| && Transacted(sb, x, txns, f, off, src, n) && k <= |txns|
    ensures Holds(sb, x, Before(x, txns, k), f, off, src, Min(CHUNK * k, n))
  {
    hide Holds, Consistent, Fits;
    if k == 0 {
      HoldsStart(sb, x, f, off, src);
    } else {
      assert TxnOK(sb, x, txns, f, off, src, n, k - 1);
    }
  }

  lemma {:induction false} TransactedFit(sb: Super, x: State, txns: seq<Txn>, f: nat, off: nat, src: seq<byte>, n: nat)
    requires Transacted(sb, x, txns, f, off, src, n)
    ensures AllFit(sb, x, txns)
  {
    hide Holds, Fits;
    forall k | 0 <= k < |txns|
      ensures Fit(sb, x, txns, k)
    {
      assert TxnOK(sb, x, txns, f, off, src, n, k);
    }
  }

  /** A write is atomic chunk by chunk.  Take any run whose steps are those of filewrite's transactions
      so far, the last possibly unfinished, with crashes and recoveries anywhere.  Cut
      the power at any moment and recover: the disk is a consistent file system in which the file
      holds the first k chunks over its old contents and every other file is as it was. */
  lemma {:induction false} CrashDuringWrite(g: Geometry, sb: Super, x: State, run: seq<Sys>, steps: seq<Step>, i: nat,
                                            ids: seq<nat>, txns: seq<Txn>, op: nat, puts: seq<Write<Block>>,
                                            f: nat, off: nat, src: seq<byte>, n: nat) returns (k: nat)
    requires LogBefore(g, sb) && Consistent(sb, x) && f < |x.tab|
    requires Transacted(sb, x, txns, f, off, src, n) && |ids| == |txns|
    requires IsRun(g, x.blocks, run, steps) && i < |run|
    requires Account(steps[..i]).events <= Script(ids, txns, |txns|) + Started(op, puts)
    ensures GoodDisk(g, run[i].disk) && k <= |txns|
    ensures Holds(sb, x, State(Recovered(g, run[i].disk), Before(x, txns, k).tab, Before(x, txns, k).owner),
                  f, off, src, Min(CHUNK * k, n))
  {
    hide Holds, Consistent, Transacted, Script, RecoverWrites, Apply, Count, Header, Open, Replay, AllFit, Account, Do,
         Enabled, WellFormed;
    CrashAtomicity(g, x.blocks, run, steps, i);
    var s := run[i];
    var h := Durable(steps[..i]);
    k := Boundary(ids, txns, |txns|, op, puts, h);
    HoldsBefore(sb, x, txns, f, off, src, n, k);
    TransactedFit(sb, x, txns, f, off, src, n);
    var y, d := Before(x, txns, k), Recovered(g, s.disk);
    RecoveredAgrees(g, sb, x, ids, txns, k, d);
    AgreeHolds(sb, x, y, d, f, off, src, Min(CHUNK * k, n));
  }

  lemma {:induction false} RecoveredAgrees(g: Geometry, sb: Super, x: State, ids: seq<nat>, txns: seq<Txn>, k: nat,
                                           d: Disk)
    requires LogBefore(g, sb) && |x.blocks| == g.total && |d| == g.total && k <= |txns| == |ids| && AllFit(sb, x, txns)
    requires forall b | g.Home(b) :: d[b] == Replay(x.blocks, Script(ids, txns, k), b)
    ensures Agree(sb, Before(x, txns, k).blocks, d)
  {
    hide Script, Replay, AllFit;
    LengthKept(sb, x, txns, k);
    forall b | sb.inodestart <= b < |d|
      ensures d[b] == Before(x, txns, k).blocks[b]
    {
      assert g.Home(b);
      ScriptReplays(sb, x, ids, txns, k, b);
    }
  }

  lemma {:induction false} LengthKept(sb: Super, x: State, txns: seq<Txn>, k: nat)
    requires AllFit(sb, x, txns) && k <= |txns|
    ensures |Before(x, txns, k).blocks| == |x.blocks|
  {
    if k > 0 {
      LengthKept(sb, x, txns, k - 1);
      assert Fit(sb, x, txns, k - 1);
    }
  }
}
