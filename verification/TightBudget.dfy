/** The reservation of begin_op cannot be smaller: a file system built by ialloc, filewrite and itrunc
    from a fresh image on which one chunk of filewrite logs all of MAXOPBLOCKS blocks. */
module TightBudget {
  import opened Bytes
  import opened Options
  import opened Sets
  import opened FsLayout
  import opened FsGrowth
  import opened FsInode
  import opened FsBlocks
  import opened FsMap
  import opened FsTrunc
  import opened FsFile
  import opened FileWrite
  import opened FsIalloc
  import Mkfs
  import Paths
  import RedoLog

  const T_FILE := 2

  /** The blocks of inode i. */
  ghost function Mine(owner: Owner, i: nat): (s: set<nat>) {
    set b | b in owner && owner[b].0 == i
  }

  ghost function Added(o: Owner, o': Owner): (s: set<nat>) {
    o'.Keys - o.Keys
  }

  /** Exactly the data blocks below m are owned. */
  ghost predicate Packed(sb: Super, owner: Owner, m: nat) {
    sb.datastart <= m <= sb.size && forall b :: b in owner <==> sb.datastart <= b < m
  }

  /** A set that contains with each element everything from m up to it is an interval. */
  lemma {:induction false} DownClosed(s: set<nat>, m: nat)
    requires forall a | a in s :: m <= a
    requires forall a, b | a in s && m <= b < a :: b in s
    ensures s == Interval(m, m + |s|)
  {
    hide Interval;
    if exists a :: a in s && a >= m + |s| {
      var a :| a in s && a >= m + |s|;
      Smaller(Interval(m, a + 1), s);
      assert false;
    }
    SameSize(s, Interval(m, m + |s|));
  }

  lemma {:induction false} PackedNext(sb: Super, o: Owner, o': Owner, m: nat)
    requires Packed(sb, o, m) && Lowest(sb, o, o') && forall a | a in o' :: sb.Data(a)
    requires forall a | a in o :: a in o'
    ensures var added := Added(o, o');
            added == Interval(m, m + |added|) && Packed(sb, o', m + |added|)
  {
    hide Interval;
    var added := o'.Keys - o.Keys;
    forall a, b | a in added && m <= b < a
      ensures b in added
    {
      assert sb.Data(b) && b !in o;
    }
    DownClosed(added, m);
    var m' := m + |added|;
    assert added != {} ==> m' - 1 in added;
    forall b
      ensures b in o' <==> sb.datastart <= b < m'
    {
      assert b in o' <==> b in o || b in added;
    }
  }

  lemma {:induction false} GrewOwners(sb: Super, x: State, y: State, i: nat, w: set<nat>)
    requires Grew(sb, x, y, i, w)
    ensures Lowest(sb, x.owner, y.owner) && Taken(x.owner, y.owner, i, w) && forall a | a in y.owner :: sb.Data(a)
    ensures forall a | a in x.owner :: a in y.owner
  {
    hide SlotAddr, SlotsOwned, Mapped, Lowest;
  }

  lemma {:induction false} GrewCount(sb: Super, x: State, y: State, i: nat, w: set<nat>)
    requires Grew(sb, x, y, i, w)
    ensures TableShape(sb, x.blocks, x.tab) && i < |x.tab|
    ensures |Added(x.owner, y.owner)| == |Missing(sb, x, i, w)|
  {
    hide Grew, Missing, Lowest, Taken, FreeBlocks;
    GrewShape(sb, x, y, i, w);
    GrewOwners(sb, x, y, i, w);
    GrewSize(sb, x, y, i, w);
    FreeSplits(sb, x.owner, y.owner, i, w);
  }

  /** Growth takes the next blocks. */
  lemma {:induction false} GrewPacked(sb: Super, x: State, y: State, i: nat, w: set<nat>, m: nat)
    requires Grew(sb, x, y, i, w) && Packed(sb, x.owner, m)
    ensures TableShape(sb, x.blocks, x.tab) && i < |x.tab|
    ensures var m' := m + |Missing(sb, x, i, w)|;
            Packed(sb, y.owner, m') && Added(x.owner, y.owner) == Interval(m, m')
  {
    hide Grew, Missing, Packed, Lowest, Taken, FreeBlocks, Interval, Added;
    GrewOwners(sb, x, y, i, w);
    PackedNext(sb, x.owner, y.owner, m);
    GrewCount(sb, x, y, i, w);
  }

  lemma {:induction false} GrewMine(sb: Super, x: State, y: State, i: nat, w: set<nat>)
    requires Grew(sb, x, y, i, w)
    ensures forall k | k != i :: Mine(y.owner, k) == Mine(x.owner, k)
    ensures Mine(y.owner, i) == Mine(x.owner, i) + Added(x.owner, y.owner)
  {
    hide Grew, Lowest;
    GrewOwners(sb, x, y, i, w);
  }

  lemma {:induction false} EmptyMine(sb: Super, x: State, i: nat)
    requires Sound(sb, x) && i < |x.tab| && x.tab[i].addrs == NOADDRS
    ensures Mine(x.owner, i) == {}
  {
    hide SlotAddr, SlotsOwned, OwnersSlot, Mapped;
    forall a | a in x.owner
      ensures x.owner[a].0 != i
    {
      OwnerAddr(sb, x, a);
      EmptySlot(sb, x, i, x.owner[a].1);
    }
  }

  /** How many blocks a new file of n bytes takes. */
  function Need(n: nat): (c: nat)
    requires n > 0
  {
    Span(0, n) + if (n - 1) / BSIZE >= NDIRECT then 1 else 0
  }

  lemma {:induction false} EmptyMissing(sb: Super, x: State, i: nat, n: nat)
    requires Sound(sb, x) && i < |x.tab| && x.tab[i].addrs == NOADDRS && 0 < n <= MAXFILE * BSIZE
    ensures Missing(sb, x, i, Wanted(0, n)) == Wanted(0, n) && |Wanted(0, n)| == Need(n)
  {
    hide SlotsOwned, OwnersSlot, Mapped, Word;
    WantedSlots(0, n);
    DataSlotsSize(0, n);
    assert Wanted(0, n) == DataSlots(0, n) + if (n - 1) / BSIZE >= NDIRECT then {ROOT} else {};
  }

  lemma {:induction false} PackedFree(sb: Super, owner: Owner, m: nat)
    requires Packed(sb, owner, m)
    ensures |FreeBlocks(sb, owner)| == sb.size - m
  {
    assert FreeBlocks(sb, owner) == Interval(m, sb.size);
  }

  /** Inodes 1 to k - 1 are in use and the first data blocks, below m, are taken. */
  ghost predicate Stage(fs: FileSys, k: nat, m: nat)
    reads fs
  {
    && fs.Settled() && FreeEmpty(fs.tab) && Packed(fs.sb, fs.owner, m) && 1 <= k <= |fs.tab|
    && forall i | 1 <= i < |fs.tab| :: fs.tab[i].typ == 0 <==> i >= k
  }

  /** A new file of n zero bytes. */
  method AddFile(fs: FileSys, n: nat, ghost k: nat, ghost m: nat)
    requires Stage(fs, k, m) && k < |fs.tab| && 0 < n <= MAXFILE * BSIZE && m + Need(n) <= fs.sb.size
    modifies fs
    ensures Stage(fs, k + 1, m + Need(n)) && |fs.tab| == |old(fs.tab)|
    ensures fs.tab[k].size == n && fs.tab[k].typ == T_FILE
    ensures forall j | 0 <= j < NSLOTS :: SlotAddr(fs.blocks, fs.tab[k], j) != 0 <==> j in Wanted(0, n)
    ensures Mine(fs.owner, k) == Interval(m, m + Need(n))
    ensures forall i | 0 <= i < |fs.tab| && i != k ::
      fs.tab[i] == old(fs.tab)[i] && Mine(fs.owner, i) == Mine(old(fs.owner), i)
  {
    hide SlotAddr, SlotsOwned, OwnersSlot, Mapped, BitmapOK, OnDisk, Content, Recorded, Grew, TooFew, Wanted,
         Transacted, Mine, Need;
    fs.BeginOp();
    assert fs.tab[k].typ == 0;
    var ip := Ialloc(fs, T_FILE);
    ghost var x := fs.Image();
    assert ip.value.inum == k;
    var f := new File(ip.value, 0);
    var src: seq<byte> := seq(n, i requires 0 <= i < n => 0);
    Roomy(fs.sb, x, k, n, m);
    var r, done, _ := Filewrite(fs, f, src);
    Grown(fs.sb, x, fs.Image(), k, n, m);
    OnlyOne(fs.sb, x, fs.Image(), k, src, n);
  }

  lemma {:induction false} Roomy(sb: Super, x: State, k: nat, n: nat, m: nat)
    requires Sound(sb, x) && k < |x.tab| && x.tab[k].addrs == NOADDRS && 0 < n <= MAXFILE * BSIZE
    requires Packed(sb, x.owner, m) && m + Need(n) <= sb.size
    ensures !TooFew(sb, x, k, Wanted(0, n)) && Accepts(0, 0, n) == n
  {
    hide SlotAddr, SlotsOwned, OwnersSlot, Mapped, Wanted;
    EmptyMissing(sb, x, k, n);
    PackedFree(sb, x.owner, m);
  }

  lemma {:induction false} Grown(sb: Super, x: State, y: State, k: nat, n: nat, m: nat)
    requires Grew(sb, x, y, k, Wanted(0, n)) && x.tab[k].addrs == NOADDRS && 0 < n <= MAXFILE * BSIZE
    requires Packed(sb, x.owner, m)
    ensures Packed(sb, y.owner, m + Need(n)) && Mine(y.owner, k) == Interval(m, m + Need(n))
    ensures forall i | i != k :: Mine(y.owner, i) == Mine(x.owner, i)
    ensures forall j | 0 <= j < NSLOTS :: SlotAddr(y.blocks, y.tab[k], j) != 0 <==> j in Wanted(0, n)
  {
    hide SlotAddr, SlotsOwned, OwnersSlot, Mapped, Word, Wanted, Mine, Packed, Missing, Taken, Lowest, Interval, Need,
         Added;
    EmptyMissing(sb, x, k, n);
    EmptyMine(sb, x, k);
    GrewPacked(sb, x, y, k, Wanted(0, n), m);
    GrewMine(sb, x, y, k, Wanted(0, n));
    forall j | 0 <= j < NSLOTS
      ensures SlotAddr(y.blocks, y.tab[k], j) != 0 <==> j in Wanted(0, n)
    {
      EmptySlot(sb, x, k, j);
      assert Addr(sb, y, k, j) != 0 <==> Addr(sb, x, k, j) != 0 || j in Wanted(0, n);
    }
  }

  lemma {:induction false} EmptySlot(sb: Super, x: State, i: nat, j: nat)
    requires TableShape(sb, x.blocks, x.tab) && i < |x.tab| && x.tab[i].addrs == NOADDRS && j < NSLOTS
    ensures Addr(sb, x, i, j) == 0
  {
  }

  /** Only inode k differs, and of it only size and addresses. */
  lemma {:induction false} OnlyOne(sb: Super, x: State, y: State, k: nat, src: seq<byte>, n: nat)
    requires Sound(sb, x) && k < |x.tab| && x.tab[k].size == 0 && Holds(sb, x, y, k, 0, src, n) && n == |src|
    ensures |y.tab| == |x.tab| && y.tab[k].size == n
    ensures forall i | 0 <= i < |x.tab| && i != k :: y.tab[i] == x.tab[i]
  {
    hide SlotAddr, SlotsOwned, OwnersSlot, Mapped, BitmapOK, OnDisk, FileByte;
    assert |Content(x.blocks, x.tab[k])| == 0;
    assert |Content(y.blocks, y.tab[k])| == n;
  }

  /** c files of the largest size. */
  method Fill(fs: FileSys, c: nat, ghost k: nat, ghost m: nat)
    requires Stage(fs, k, m) && k + c <= |fs.tab| && m + NSLOTS * c <= fs.sb.size
    modifies fs
    ensures Stage(fs, k + c, m + NSLOTS * c) && |fs.tab| == |old(fs.tab)|
    ensures forall i | 0 <= i < k :: fs.tab[i] == old(fs.tab)[i] && Mine(fs.owner, i) == Mine(old(fs.owner), i)
  {
    hide Stage, Mine, SlotAddr, Interval, Need, Wanted;
    StageSize(fs, k, m);
    LargestFile();
    ghost var at := m;
    for j := 0 to c
      invariant Stage(fs, k + j, at) && |fs.tab| == |old(fs.tab)| && at == m + 141 * j
      invariant forall i | 0 <= i < k :: fs.tab[i] == old(fs.tab)[i] && Mine(fs.owner, i) == Mine(old(fs.owner), i)
    {
      AddFile(fs, MAXFILE * BSIZE, k + j, at);
      at := at + 141;
    }
  }

  lemma {:induction false} LargestFile()
    ensures Need(MAXFILE * BSIZE) == NSLOTS == 141
  {
  }

  lemma {:induction false} StageSize(fs: FileSys, k: nat, m: nat)
    requires Stage(fs, k, m)
    ensures fs.Settled() && k <= |fs.tab|
  {
  }

  /** Truncates a file that has the one block b. */
  method GiveBack(fs: FileSys, i: nat, ghost b: nat)
    requires fs.Settled() && i < |fs.tab| && fs.tab[i].typ != 0 && Mine(fs.owner, i) == {b}
    modifies fs
    ensures fs.Settled() && |fs.tab| == |old(fs.tab)| && fs.owner.Keys == old(fs.owner).Keys - {b}
    ensures forall k | 0 <= k < |fs.tab| && k != i ::
      fs.tab[k] == old(fs.tab)[k] && Mine(fs.owner, k) == Mine(old(fs.owner), k)
  {
    hide SlotAddr, SlotsOwned, OwnersSlot, Mapped, BitmapOK, OnDisk, Recorded, SameBytes, Named;
    fs.BeginOp();
    var ip := Paths.Ilock(fs, i);
    Itrunc(fs, ip.value);
    DisownOne(old(fs.owner), i, b);
  }

  lemma {:induction false} DisownOne(owner: Owner, i: nat, b: nat)
    requires Mine(owner, i) == {b}
    ensures Disown(owner, i).Keys == owner.Keys - {b}
    ensures forall k | k != i :: Mine(Disown(owner, i), k) == Mine(owner, k)
  {
    forall a | a in owner
      ensures owner[a].0 == i <==> a == b
    {
      assert a in Mine(owner, i) <==> a == b;
    }
  }

  // ---------- the chunk ----------

  const SIZE := 12755
  const NINODES := 96
  /** Inside the last direct block of the target. */
  const AT := 11 * BSIZE + 1

  /** One data block in each of the four blocks of the free map. */
  ghost function Holes(): (s: set<nat>)
    ensures |s| == 4 && forall b :: b in s <==> b == 61 || b == 4292 || b == 8523 || b == 12754
  {
    {61, 4292, 8523, 12754}
  }

  lemma {:induction false} TightLayout()
    ensures Mkfs.Layout(SIZE, NINODES) == Super(SIZE, NINODES, 32, 45, 49)
    ensures Need(AT) == 12 && Need(BSIZE) == 1 && AT < MAXFILE * BSIZE
  {
  }

  /** A chunk at AT needs the target's last direct block, the indirect block and three more. */
  lemma {:induction false} TightWanted()
    ensures Wanted(AT, CHUNK) == {11, 12, 13, 14, 15}
  {
    assert SlotOf(11) == 11 && SlotOf(12) == 13 && SlotOf(13) == 14 && SlotOf(14) == 15;
  }

  ghost predicate Target(di: Dinode) {
    |di.addrs| == NDIRECT + 1 && di.size == AT && di.typ == T_FILE && di.addrs[11] != 0 && di.addrs[ROOT] == 0
  }

  lemma {:induction false} TightMissing(sb: Super, x: State)
    requires Sound(sb, x) && 1 < |x.tab| && Target(x.tab[1]) && FreeBlocks(sb, x.owner) == Holes()
    ensures Missing(sb, x, 1, Wanted(AT, CHUNK)) == {12, 13, 14, 15} && !TooFew(sb, x, 1, Wanted(AT, CHUNK))
  {
    hide SlotsOwned, OwnersSlot, Mapped, Word, FreeBlocks, Wanted;
    TightWanted();
    var m := Missing(sb, x, 1, Wanted(AT, CHUNK));
    assert m == {12, 13, 14, 15};
  }

  lemma {:induction false} FourSlots(m: set<nat>)
    requires m == {12, 13, 14, 15}
    ensures |m| == 4
  {
  }

  /** All holes are taken. */
  lemma {:induction false} TightAdded(sb: Super, x: State, y: State)
    requires Grew(sb, x, y, 1, Wanted(AT, CHUNK)) && Target(x.tab[1]) && FreeBlocks(sb, x.owner) == Holes()
    ensures Added(x.owner, y.owner) == Holes()
  {
    hide SlotAddr, SlotsOwned, OwnersSlot, Mapped, FreeBlocks, Wanted, Missing, Lowest, Taken, Holes;
    TightMissing(sb, x);
    GrewSize(sb, x, y, 1, Wanted(AT, CHUNK));
    GrewCount(sb, x, y, 1, Wanted(AT, CHUNK));
    FourSlots(Missing(sb, x, 1, Wanted(AT, CHUNK)));
    SameSize(Added(x.owner, y.owner), Holes());
  }

  lemma {:induction false} TightMaps(sb: Super)
    requires sb.bmapstart == 45
    ensures MapsOf(sb, Holes()) == {45, 46, 47, 48}
  {
    assert sb.BBlock(61) == 45 && sb.BBlock(4292) == 46 && sb.BBlock(8523) == 47 && sb.BBlock(12754) == 48;
    var m := MapsOf(sb, Holes());
    assert forall b | b in Holes() :: b == 61 || b == 4292 || b == 8523 || b == 12754;
    assert m == {45, 46, 47, 48};
  }

  /** A slot that was missing names a block that was taken. */
  lemma {:induction false} SlotAdded(sb: Super, x: State, y: State, i: nat, w: set<nat>, m: set<nat>, j: nat)
    requires Grew(sb, x, y, i, w) && m == Missing(sb, x, i, w) && j in m && j < NSLOTS
    ensures Addr(sb, y, i, j) in Added(x.owner, y.owner)
  {
    hide SlotAddr, SlotsOwned, OwnersSlot, Mapped, Missing, Lowest, Taken;
    MissingServed(sb, x, y, i, w, j);
  }

  /** The last direct block is no hole and stays. */
  lemma {:induction false} TightOld(sb: Super, x: State, y: State)
    requires Grew(sb, x, y, 1, Wanted(AT, CHUNK)) && Target(x.tab[1]) && FreeBlocks(sb, x.owner) == Holes()
    ensures TableShape(sb, y.blocks, y.tab) && 1 < |x.tab| == |y.tab| && |x.tab[1].addrs| == NDIRECT + 1
    ensures var a0 := x.tab[1].addrs[11]; sb.Data(a0) && a0 !in Holes() && Addr(sb, y, 1, 11) == a0
  {
    hide SlotAddr, SlotsOwned, OwnersSlot, Mapped, Wanted, Missing, Lowest, Taken, Holes, FreeBlocks;
    DirectSlot(x.blocks, x.tab[1], 11);
    assert Addr(sb, y, 1, 11) == Addr(sb, x, 1, 11);
    EntryData(sb, x.blocks, x.tab, x.owner, 1, 11);
    SlotTaken(sb, x, 1, 11);
  }

  /** The data goes to the old block and to holes; the indirect block is a hole. */
  lemma {:induction false} TightData(sb: Super, x: State, y: State)
    requires Grew(sb, x, y, 1, Wanted(AT, CHUNK)) && Target(x.tab[1]) && FreeBlocks(sb, x.owner) == Holes()
    ensures TableShape(sb, y.blocks, y.tab) && 1 < |y.tab|
    ensures var a0, d := x.tab[1].addrs[11], DataOf(sb, y, 1, Wanted(AT, CHUNK));
            sb.Data(a0) && a0 !in Holes() && a0 in d && d <= {a0} + Holes()
    ensures y.tab[1].addrs[ROOT] in Holes()
  {
    hide SlotAddr, Wanted, Missing, Holes, FreeBlocks, Grew, Target, DataOf, Added;
    GrewShape(sb, x, y, 1, Wanted(AT, CHUNK));
    TightWanted();
    TightOld(sb, x, y);
    TightSlots(sb, x, y);
    DataWithin(sb, y, Wanted(AT, CHUNK), x.tab[1].addrs[11], Holes());
    RootSlot(sb, y, 1, ROOT);
  }

  lemma {:induction false} DataWithin(sb: Super, y: State, w: set<nat>, a: nat, s: set<nat>)
    requires TableShape(sb, y.blocks, y.tab) && 1 < |y.tab| && w == {11, 12, 13, 14, 15} && Addr(sb, y, 1, 11) == a
    requires forall j | 12 <= j < 16 :: Addr(sb, y, 1, j) in s
    ensures a in DataOf(sb, y, 1, w) && DataOf(sb, y, 1, w) <= {a} + s
  {
    hide SlotAddr;
  }

  /** The missing slots get holes. */
  lemma {:induction false} TightSlots(sb: Super, x: State, y: State)
    requires Grew(sb, x, y, 1, Wanted(AT, CHUNK)) && Target(x.tab[1]) && FreeBlocks(sb, x.owner) == Holes()
    ensures TableShape(sb, y.blocks, y.tab) && 1 < |y.tab| && forall j | 12 <= j < 16 :: Addr(sb, y, 1, j) in Holes()
  {
    hide SlotAddr, Wanted, Missing, Holes, FreeBlocks, Grew, Target, Added;
    GrewShape(sb, x, y, 1, Wanted(AT, CHUNK));
    TightAdded(sb, x, y);
    assert Missing(sb, x, 1, Wanted(AT, CHUNK)) == {12, 13, 14, 15} by {
      GrewSound(sb, x, y, 1, Wanted(AT, CHUNK));
      TightMissing(sb, x);
    }
    forall j | 12 <= j < 16
      ensures Addr(sb, y, 1, j) in Holes()
    {
      SlotAdded(sb, x, y, 1, Wanted(AT, CHUNK), {12, 13, 14, 15}, j);
    }
  }

  lemma {:induction false} GrewSound(sb: Super, x: State, y: State, i: nat, w: set<nat>)
    requires Grew(sb, x, y, i, w)
    ensures Sound(sb, x) && Sound(sb, y)
  {
  }

  lemma {:induction false} Absorbed(d: set<nat>, added: set<nat>, maps: set<nat>, e: set<nat>, a: nat)
    requires a in d && d <= {a} + added && e <= added
    ensures d + (added + maps + e) == {a} + added + maps
  {
  }

  /** What the chunk logs: the old block, the holes and their four free-map blocks. */
  lemma {:induction false} TightLogs(sb: Super, x: State, y: State)
    requires Grew(sb, x, y, 1, Wanted(AT, CHUNK)) && Target(x.tab[1]) && FreeBlocks(sb, x.owner) == Holes()
    requires sb.bmapstart == 45
    ensures sb.Data(x.tab[1].addrs[11]) && x.tab[1].addrs[11] !in Holes()
    ensures WriteLogs(sb, x, y, 1, Wanted(AT, CHUNK)) == {x.tab[1].addrs[11]} + Holes() + {45, 46, 47, 48}
  {
    hide SlotAddr, SlotsOwned, OwnersSlot, Mapped, Wanted, Missing, Lowest, Taken, EntryNew, MapsOf, Holes, DataOf,
         FreeBlocks;
    TightData(sb, x, y);
    TightAdded(sb, x, y);
    TightMaps(sb);
    Absorbed(DataOf(sb, y, 1, Wanted(AT, CHUNK)), Holes(), {45, 46, 47, 48},
             EntryRoot(x.owner, y.owner, y.tab[1].addrs[ROOT]), x.tab[1].addrs[11]);
  }

  lemma {:induction false} SlotTaken(sb: Super, x: State, i: nat, j: nat)
    requires Sound(sb, x) && i < |x.tab| && j < NSLOTS && Addr(sb, x, i, j) != 0
    ensures Addr(sb, x, i, j) !in FreeBlocks(sb, x.owner)
  {
    hide SlotAddr, OwnersSlot, Mapped;
  }

  lemma {:induction false} TenBlocks(a: nat)
    requires a >= 49 && a !in Holes()
    ensures |{a} + Holes() + {45, 46, 47, 48} + {32}| == RedoLog.MAXOPBLOCKS
  {
    hide Holes;
    var maps: set<nat> := {45, 46, 47, 48};
    assert |maps| == 4;
    Joined({a}, Holes());
    Joined({a} + Holes(), maps);
    Joined({a} + Holes() + maps, {32});
  }

  lemma {:induction false} TightChunk(sb: Super, x: State, y: State, src: seq<byte>)
    requires Consistent(sb, x) && Consistent(sb, y) && OthersKept(sb, x.blocks, x.tab, y.blocks, y.tab, 1)
    requires Grew(sb, x, y, 1, Wanted(AT, CHUNK)) && Target(x.tab[1]) && FreeBlocks(sb, x.owner) == Holes()
    requires sb == Super(SIZE, NINODES, 32, 45, 49) && |y.tab| == |x.tab| && |src| == CHUNK
    requires Content(y.blocks, y.tab[1]) == Overwrite(Content(x.blocks, x.tab[1]), AT, src)
    ensures |WriteLogs(sb, x, y, 1, Wanted(AT, CHUNK)) + {sb.IBlock(1)}| == RedoLog.MAXOPBLOCKS
    ensures Holds(sb, x, y, 1, AT, src, CHUNK)
  {
    hide SlotAddr, BitmapOK, OnDisk, Content, Overwrite, WriteLogs, Wanted, OthersKept, Holes, FreeBlocks, Grew,
         SlotsOwned, OwnersSlot, Mapped;
    TightLogs(sb, x, y);
    TenBlocks(x.tab[1].addrs[11]);
    assert src[..CHUNK] == src;
  }

  /** From a fresh image, a file up to its last direct block and full files around four holes; then
      one transaction of filewrite, a chunk at AT, logs as many blocks as begin_op reserves. */
  method FullChunk() returns (fs: FileSys, ghost x: State, src: seq<byte>)
    ensures fresh(fs) && fs.Settled() && Consistent(fs.sb, x) && fs.base == x.blocks
    ensures |src| == CHUNK && 1 < |x.tab| && Holds(fs.sb, x, fs.Image(), 1, AT, src, CHUNK)
    ensures |fs.logged| == RedoLog.MAXOPBLOCKS && fs.logged == Touched(fs.puts)
  {
    hide SlotAddr, SlotsOwned, OwnersSlot, Mapped, BitmapOK, OnDisk, Content, Recorded, Overwrite, Grew, TooFew,
         WriteLogs, Wanted, OthersKept, Holes, FreeBlocks, Holds;
    fs := Holey();
    src := seq(CHUNK, i requires 0 <= i < CHUNK => 0);
    fs.BeginOp();
    var ip := Paths.Ilock(fs, 1);
    x := fs.Image();
    TightMissing(fs.sb, x);
    var w := Writei(fs, ip.value, src, AT);
    TightChunk(fs.sb, x, fs.Image(), src);
    LoggedIsTouched(fs);
  }

  lemma {:induction false} LoggedIsTouched(fs: FileSys)
    requires fs.Journaled()
    ensures fs.logged == Touched(fs.puts)
  {
  }

  /** The file system just before. */
  method Holey() returns (fs: FileSys)
    ensures fresh(fs) && fs.Settled() && fs.sb == Super(SIZE, NINODES, 32, 45, 49)
    ensures 1 < |fs.tab| && Target(fs.tab[1]) && FreeBlocks(fs.sb, fs.owner) == Holes()
  {
    hide Stage, Mine, SlotAddr, Interval, SlotsOwned, OwnersSlot, Mapped, BitmapOK, OnDisk, Recorded, Wanted, Need;
    fs := Packing();
    GiveBack(fs, 2, 61);
    GiveBack(fs, 33, 4292);
    GiveBack(fs, 64, 8523);
    GiveBack(fs, 95, 12754);
    HolesFree(fs.sb, fs.owner);
  }

  lemma {:induction false} HolesFree(sb: Super, owner: Owner)
    requires sb.datastart == 49 && sb.size == SIZE
    requires forall b :: b in owner <==> 49 <= b < SIZE && b != 61 && b != 4292 && b != 8523 && b != 12754
    ensures FreeBlocks(sb, owner) == Holes()
  {
  }

  /** Every data block taken, with one-block files at the holes. */
  method Packing() returns (fs: FileSys)
    ensures fresh(fs) && fs.Settled() && fs.sb == Super(SIZE, NINODES, 32, 45, 49) && |fs.tab| == NINODES
    ensures Target(fs.tab[1]) && forall b :: b in fs.owner <==> 49 <= b < SIZE
    ensures forall i | 1 <= i < NINODES :: fs.tab[i].typ != 0
    ensures Mine(fs.owner, 2) == {61} && Mine(fs.owner, 33) == {4292}
    ensures Mine(fs.owner, 64) == {8523} && Mine(fs.owner, 95) == {12754}
  {
    hide Stage, Mine, SlotAddr, Interval, SlotsOwned, OwnersSlot, Mapped, BitmapOK, OnDisk, Recorded, Wanted, Need;
    TightLayout();
    var image := Mkfs.Format(SIZE, NINODES);
    ghost var e := Mkfs.Empty(image, NINODES);
    fs := new FileSys(Mkfs.Layout(SIZE, NINODES), image, e.tab, e.owner);
    StageStart(fs);
    AddFile(fs, AT, 1, 49);
    TargetMade(fs);
    AddFile(fs, BSIZE, 2, 61);
    Fill(fs, 30, 3, 62);
    AddFile(fs, BSIZE, 33, 4292);
    Fill(fs, 30, 34, 4293);
    AddFile(fs, BSIZE, 64, 8523);
    Fill(fs, 30, 65, 8524);
    AddFile(fs, BSIZE, 95, 12754);
    OneBlock(61);
    OneBlock(4292);
    OneBlock(8523);
    OneBlock(12754);
    StageEnd(fs);
  }

  lemma {:induction false} OneBlock(m: nat)
    ensures Interval(m, m + 1) == {m}
  {
  }

  lemma {:induction false} StageStart(fs: FileSys)
    requires fs.Settled() && fs.owner == map[] && |fs.tab| == NINODES && fs.sb == Super(SIZE, NINODES, 32, 45, 49)
    requires forall i | 0 <= i < |fs.tab| :: fs.tab[i] == Fresh(0)
    ensures Stage(fs, 1, 49)
  {
  }

  lemma {:induction false} StageEnd(fs: FileSys)
    requires Stage(fs, NINODES, SIZE) && |fs.tab| == NINODES && fs.sb.datastart == 49
    ensures fs.Settled() && forall b :: b in fs.owner <==> 49 <= b < SIZE
    ensures forall i | 1 <= i < NINODES :: fs.tab[i].typ != 0
  {
  }

  lemma {:induction false} TargetMade(fs: FileSys)
    requires Stage(fs, 2, 61) && fs.tab[1].size == AT && fs.tab[1].typ == T_FILE
    requires forall j | 0 <= j < NSLOTS :: SlotAddr(fs.blocks, fs.tab[1], j) != 0 <==> j in Wanted(0, AT)
    ensures Target(fs.tab[1])
  {
    DirectSlot(fs.blocks, fs.tab[1], 11);
    DirectSlot(fs.blocks, fs.tab[1], ROOT);
    assert SlotOf(11) == 11;
    assert 11 in Wanted(0, AT) && ROOT !in Wanted(0, AT);
  }
}
