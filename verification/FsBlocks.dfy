/** fs.c as code: the block allocator.  `blocks` is what running code sees through the buffer cache;
    a `log_write` replaces a block and is recorded in the current operation.
    Operations run one at a time: the inode and buffer locks are taken as given. */
module FsBlocks {
  import opened Bytes
  import opened Options
  import opened FsLayout
  import opened FsGrowth
  import opened FsInode
  import Sectors

  /** The in-memory copy of an inode (struct inode). */
  class Inode {
    const inum: nat
    var typ: uint16
    var major: uint16
    var minor: uint16
    var nlink: uint16
    var size: uint32
    var addrs: seq<uint32>

    /** iget and ilock: a locked inode read from the disk. */
    constructor (inum: nat, di: Dinode)
      requires Storable(di)
      ensures this.inum == inum && AsDinode() == di
    {
      this.inum := inum;
      typ, major, minor, nlink, size, addrs := di.typ, di.major, di.minor, di.nlink, di.size, di.addrs;
    }

    function AsDinode(): (di: Dinode)
      reads this
    {
      Dinode(typ, major, minor, nlink, size, addrs)
    }
  }

  /** The writes of an operation, in order, turn base into blocks; all of them are behind the log, and
      they touch the blocks logged. */
  ghost predicate Recorded(sb: Super, base: Blocks, puts: seq<Sectors.Write<Block>>, blocks: Blocks, logged: set<nat>) {
    && Sectors.InDisk(base, puts) && Sectors.Apply(base, puts) == blocks
    && (forall w | w in puts :: sb.inodestart <= w.block)
    && logged == Touched(puts)
  }

  ghost function Touched(puts: seq<Sectors.Write<Block>>): (s: set<nat>) {
    set w | w in puts :: w.block
  }

  lemma {:induction false} RecordedNone(sb: Super, blocks: Blocks)
    ensures Recorded(sb, blocks, [], blocks, {})
  {
  }

  lemma {:induction false} RecordedPut(sb: Super, base: Blocks, puts: seq<Sectors.Write<Block>>, blocks: Blocks,
                                       logged: set<nat>, b: nat, data: Block)
    requires Recorded(sb, base, puts, blocks, logged) && sb.inodestart <= b < |blocks|
    ensures Recorded(sb, base, puts + [Sectors.Write(b, data)], blocks[b := data], logged + {b})
  {
    var puts' := puts + [Sectors.Write(b, data)];
    assert puts'[..|puts|] == puts;
    assert forall w | w in puts' :: w in puts || w == Sectors.Write(b, data);
    assert Sectors.Write(b, data) in puts';
    forall w | w in puts
      ensures w in puts'
    {
    }
    assert logged + {b} == Touched(puts');
  }

  class FileSys {
    const sb: Super
    var blocks: Blocks
    ghost var tab: seq<Dinode>
    ghost var owner: Owner
    ghost var live: set<nat>
    /** The blocks at begin_op, what was written since, and where. */
    ghost var base: Blocks
    ghost var puts: seq<Sectors.Write<Block>>
    ghost var logged: set<nat>

    constructor (sb: Super, image: Blocks, ghost tab: seq<Dinode>, ghost owner: Owner)
      requires TableOK(sb, image, tab, owner) && BitmapOK(sb, image, owner.Keys) && OnDisk(sb, image, tab)
      ensures this.sb == sb && blocks == image && this.tab == tab && this.owner == owner && logged == {}
      ensures Settled()
    {
      this.sb, blocks, this.tab, this.owner, live := sb, image, tab, owner, owner.Keys;
      base, puts, logged := image, [], {};
      new;
      RecordedNone(sb, image);
    }

    /** The table of block lists is sound, the free map marks metadata and owned blocks, and the
        writes of the current operation are on record. */
    ghost predicate Ok()
      reads this
    {
      TableOK(sb, blocks, tab, owner) && BitmapOK(sb, blocks, live) && live == owner.Keys && Journaled()
    }

    ghost predicate Journaled()
      reads this
    {
      Recorded(sb, base, puts, blocks, logged)
    }

    /** Between operations the disk also holds every inode. */
    ghost predicate Settled()
      reads this
    {
      Ok() && OnDisk(sb, blocks, tab)
    }

    /** begin_op: nothing written yet. */
    method BeginOp()
      modifies this`base, this`puts, this`logged
      ensures Journaled() && base == blocks && puts == [] && logged == {}
    {
      base, puts, logged := blocks, [], {};
      RecordedNone(sb, blocks);
    }

    ghost function Image(): (x: State)
      reads this
    {
      State(blocks, tab, owner)
    }

    /** ip is the locked in-memory copy of its table entry. */
    ghost predicate Locked(ip: Inode)
      reads this, ip
    {
      ip.inum < |tab| && tab[ip.inum] == ip.AsDinode()
    }

    method LogWrite(b: nat, data: Block)
      requires Journaled() && sb.inodestart <= b < |blocks|
      modifies this`blocks, this`logged, this`puts
      ensures Journaled() && puts == old(puts) + [Sectors.Write(b, data)]
      ensures blocks == old(blocks)[b := data] && logged == old(logged) + {b}
    {
      hide Recorded;
      RecordedPut(sb, base, puts, blocks, logged, b, data);
      blocks := blocks[b := data];
      logged := logged + {b};
      puts := puts + [Sectors.Write(b, data)];
    }

    method Bzero(b: nat)
      requires Journaled() && sb.inodestart <= b < |blocks|
      modifies this`blocks, this`logged, this`puts
      ensures Journaled() && blocks == old(blocks)[b := ZERO] && logged == old(logged) + {b}
    {
      LogWrite(b, ZERO);
    }

    /** Marks block a in the free map and zeroes it. */
    method Claim(a: nat)
      requires BitmapOK(sb, blocks, live) && Journaled() && sb.Data(a)
      modifies this`blocks, this`live, this`logged, this`puts
      ensures Claims(sb, old(blocks), a, blocks)
      ensures live == old(live) + {a} && logged == old(logged) + {sb.BBlock(a), a}
      ensures BitmapOK(sb, blocks, live) && Journaled()
    {
      hide Bit, SetBit, InUse, Recorded;
      BBlockBelow(sb, a);
      MarkUsed(sb, blocks, live, a);
      LogWrite(sb.BBlock(a), SetBit(blocks[sb.BBlock(a)], a % BPB));
      live := live + {a};
      BitmapKept(sb, blocks, live, a, ZERO);
      Bzero(a);
    }

    /** The lowest free block, marked and zeroed; None is the panic "out of blocks". */
    method Balloc() returns (r: Option<uint32>)
      requires BitmapOK(sb, blocks, live) && Journaled()
      modifies this`blocks, this`live, this`logged, this`puts
      ensures r.None? <==> forall b | sb.Data(b) :: b in old(live)
      ensures r.None? ==> unchanged(this)
      ensures r.Some? ==>
        var a := r.value;
        && sb.Data(a) && a !in old(live)
        && (forall b | sb.Data(b) && b < a :: b in old(live))
        && Claims(sb, old(blocks), a, blocks)
        && live == old(live) + {a}
        && logged == old(logged) + {sb.BBlock(a), a}
        && BitmapOK(sb, blocks, live) && Journaled()
    {
      hide Bit, SetBit, InUse, BitmapOK, Recorded, Claims;
      var b := 0;
      while b < sb.size
        invariant unchanged(this) && b % BPB == 0
        invariant forall c | sb.Data(c) && c < b :: c in live
      {
        BitmapShape(sb, blocks, live, b);
        var bp := blocks[sb.BBlock(b)];
        var bi := 0;
        while bi < BPB && b + bi < sb.size
          invariant unchanged(this) && 0 <= bi <= BPB
          invariant forall c | sb.Data(c) && c < b + bi :: c in live
        {
          BitMeans(sb, blocks, live, b, bi);
          if !Bit(bp, bi) {
            Claim(b + bi);
            return Some(b + bi);
          }
          bi := bi + 1;
        }
        b := b + BPB;
      }
      r := None;
    }

    /** Clears b's bit; true is the panic "freeing free block". */
    method Bfree(b: nat) returns (panicked: bool)
      requires BitmapOK(sb, blocks, live) && Journaled() && sb.Data(b)
      modifies this`blocks, this`live, this`logged, this`puts
      ensures panicked <==> b !in old(live)
      ensures panicked ==> unchanged(this)
      ensures !panicked ==>
        && blocks == old(blocks)[sb.BBlock(b) := ClearBit(old(blocks)[sb.BBlock(b)], b % BPB)]
        && live == old(live) - {b}
        && logged == old(logged) + {sb.BBlock(b)}
        && BitmapOK(sb, blocks, live) && Journaled()
    {
      hide Bit, ClearBit, Recorded;
      BBlockBelow(sb, b);
      var bp := blocks[sb.BBlock(b)];
      assert Bit(bp, b % BPB) == InUse(sb, blocks, b);
      if !Bit(bp, b % BPB) {
        return true;
      }
      MarkFree(sb, blocks, live, b);
      LogWrite(sb.BBlock(b), ClearBit(bp, b % BPB));
      live := live - {b};
      panicked := false;
    }
  }

  /** What the blocks are after balloc has claimed a. */
  function Allocated(sb: Super, blocks: Blocks, a: nat): (r: Blocks)
    requires a < |blocks| && sb.BBlock(a) < |blocks|
  {
    blocks[sb.BBlock(a) := SetBit(blocks[sb.BBlock(a)], a % BPB)][a := ZERO]
  }

  ghost predicate Claims(sb: Super, blocks: Blocks, a: nat, blocks': Blocks) {
    a < |blocks| && sb.BBlock(a) < |blocks| && blocks' == Allocated(sb, blocks, a)
  }

  /** Claiming an unowned block disturbs no slot, no file and no inode block. */
  lemma {:induction false} AllocKeepsTable(sb: Super, blocks: Blocks, blocks': Blocks, tab: seq<Dinode>,
        owner: Owner, a: nat)
    requires TableOK(sb, blocks, tab, owner) && sb.Data(a) && a !in owner
    requires sb.BBlock(a) < |blocks| && blocks' == Allocated(sb, blocks, a)
    ensures TableOK(sb, blocks', tab, owner) && blocks'[a] == ZERO
    ensures SlotsKept(sb, blocks, tab, blocks', tab) && SameFiles(sb, blocks, tab, blocks', tab)
    ensures forall c | c in owner :: blocks'[c] == blocks[c]
    ensures forall c | 0 <= c < sb.bmapstart :: blocks'[c] == blocks[c]
  {
    hide SetBit, SlotAddr, FileByte;
    BBlockBelow(sb, a);
    var x := SetBit(blocks[sb.BBlock(a)], a % BPB);
    var mid := blocks[sb.BBlock(a) := x];
    UnownedWrite(sb, blocks, tab, owner, sb.BBlock(a), x);
    UnownedWrite(sb, mid, tab, owner, a, ZERO);
  }

  lemma {:induction false} BBlockBelow(sb: Super, b: nat)
    requires sb.Valid() && b < sb.size
    ensures sb.bmapstart <= sb.BBlock(b) <= sb.bmapstart + sb.size / BPB < sb.datastart <= sb.size
  {
    assert b / BPB <= sb.size / BPB;
  }

  lemma {:induction false} BitmapShape(sb: Super, blocks: Blocks, live: set<nat>, b: nat)
    requires BitmapOK(sb, blocks, live) && b < sb.size
    ensures sb.Valid() && sb.BBlock(b) < |blocks| == sb.size
  {
    BBlockBelow(sb, b);
  }

  lemma {:induction false} BitMeans(sb: Super, blocks: Blocks, live: set<nat>, b: nat, bi: nat)
    requires BitmapOK(sb, blocks, live) && b % BPB == 0 && bi < BPB && b + bi < sb.size
    requires sb.BBlock(b) < |blocks|
    ensures Bit(blocks[sb.BBlock(b)], bi) <==> b + bi < sb.datastart || b + bi in live
  {
    hide Bit;
    assert (b + bi) / BPB == b / BPB && (b + bi) % BPB == bi;
    assert InUse(sb, blocks, b + bi) == Bit(blocks[sb.BBlock(b)], bi);
  }
}
