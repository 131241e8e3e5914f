/** What allocating blocks for one file does to the file system: which slots are filled, which blocks
    are taken, how many that is, and what is logged for it. */
module FsGrowth {
  import opened Bytes
  import opened Sets
  import opened FsLayout

  /** The blocks, the inode table and the owner of every block. */
  datatype State = State(blocks: Blocks, tab: seq<Dinode>, owner: Owner)

  ghost predicate Sound(sb: Super, x: State) {
    TableOK(sb, x.blocks, x.tab, x.owner)
  }

  /** The block that slot j of inode i names, 0 if none. */
  ghost function Addr(sb: Super, x: State, i: nat, j: nat): (a: nat)
    requires TableShape(sb, x.blocks, x.tab) && i < |x.tab| && j < NSLOTS
  {
    SlotAddr(x.blocks, x.tab[i], j)
  }

  /** The slots needed for the file's nth block. */
  ghost function SlotsFor(bn: nat): (w: set<nat>) {
    {SlotOf(bn)} + if bn >= NDIRECT then {ROOT} else {}
  }

  /** The slots needed for n bytes from off. */
  ghost function Wanted(off: nat, n: nat): (w: set<nat>) {
    if n == 0 then {}
    else
      (set bn | off / BSIZE <= bn <= (off + n - 1) / BSIZE :: SlotOf(bn))
      + if (off + n - 1) / BSIZE >= NDIRECT then {ROOT} else {}
  }

  /** Those of the slots that name no block. */
  ghost function Missing(sb: Super, x: State, i: nat, w: set<nat>): (m: set<nat>)
    requires TableShape(sb, x.blocks, x.tab) && i < |x.tab|
    ensures forall j | j in m :: j in w && j < NSLOTS
  {
    set j | j in w && j < NSLOTS && Addr(sb, x, i, j) == 0
  }

  ghost function FreeBlocks(sb: Super, owner: Owner): (f: set<nat>) {
    set b | sb.datastart <= b < sb.size && b !in owner
  }

  /** Blocks are taken from the bottom: every block taken is below every block still free. */
  ghost predicate Lowest(sb: Super, o: Owner, o': Owner) {
    forall a, b | a in o' && a !in o && sb.Data(b) && b !in o' :: a < b
  }

  /** The owners are as before, and every block taken serves one of the slots w of inode i. */
  ghost predicate Taken(o: Owner, o': Owner, i: nat, w: set<nat>) {
    && (forall a | a in o :: a in o' && o'[a] == o[a])
    && (forall a | a in o' && a !in o :: o'[a].0 == i && o'[a].1 in w)
  }

  /** From x to y, exactly the missing ones of the slots w of inode i got a block each, the lowest
      free ones, and every other slot is as it was. */
  ghost predicate Grew(sb: Super, x: State, y: State, i: nat, w: set<nat>) {
    && Sound(sb, x) && Sound(sb, y) && i < |x.tab| && (forall j | j in w :: j < NSLOTS)
    && Taken(x.owner, y.owner, i, w) && Lowest(sb, x.owner, y.owner)
    && (forall i', j | 0 <= i' < |x.tab| && 0 <= j < NSLOTS && (i' != i || Addr(sb, x, i', j) != 0) ::
          Addr(sb, y, i', j) == Addr(sb, x, i', j))
    && (forall j | 0 <= j < NSLOTS :: Addr(sb, y, i, j) != 0 <==> Addr(sb, x, i, j) != 0 || j in w)
  }

  lemma {:induction false} GrewNone(sb: Super, x: State, i: nat, w: set<nat>)
    requires Sound(sb, x) && i < |x.tab| && forall j | j in w :: j < NSLOTS && Addr(sb, x, i, j) != 0
    ensures Grew(sb, x, x, i, w)
  {
    hide SlotAddr, SlotsOwned, OwnersSlot, Mapped;
  }

  lemma {:induction false} GrewOne(sb: Super, x: State, y: State, i: nat, j: nat, a: nat)
    requires Sound(sb, x) && Sound(sb, y) && i < |x.tab| && j < NSLOTS && Addr(sb, x, i, j) == 0
    requires SlotsPlus(sb, x.blocks, x.tab, y.blocks, y.tab, i, j, a) && sb.Data(a) && a !in x.owner
    requires y.owner == x.owner[a := (i, j)] && forall b | sb.Data(b) && b < a :: b in x.owner
    ensures Grew(sb, x, y, i, {j})
  {
    hide SlotAddr, SlotsOwned, OwnersSlot, Mapped;
  }

  lemma {:induction false} GrewTwice(sb: Super, x: State, y: State, z: State, i: nat, v: set<nat>, w: set<nat>)
    requires Grew(sb, x, y, i, v) && Grew(sb, y, z, i, w)
    ensures Grew(sb, x, z, i, v + w)
  {
    hide SlotAddr, SlotsOwned, OwnersSlot, Mapped;
    forall i', j | 0 <= i' < |x.tab| && 0 <= j < NSLOTS && (i' != i || Addr(sb, x, i', j) != 0)
      ensures Addr(sb, z, i', j) == Addr(sb, x, i', j)
    {
      assert Addr(sb, y, i', j) == Addr(sb, x, i', j);
    }
  }

  // ---------- counting ----------

  /** The block of a new owner entry serves a missing slot. */
  lemma {:induction false} ServesMissing(sb: Super, x: State, y: State, i: nat, w: set<nat>, a: nat)
    requires Grew(sb, x, y, i, w) && a in y.owner && a !in x.owner
    ensures sb.Data(a) && y.owner[a].1 in Missing(sb, x, i, w) && Addr(sb, y, i, y.owner[a].1) == a
  {
    hide SlotAddr, Mapped;
    var j := y.owner[a].1;
    assert Addr(sb, y, i, j) == a;
    var c := Addr(sb, x, i, j);
    assert c != 0 ==> c in x.owner;
  }

  lemma {:induction false} OwnerAddr(sb: Super, y: State, a: nat)
    requires Sound(sb, y) && a in y.owner
    ensures sb.Data(a) && y.owner[a].0 < |y.tab| && y.owner[a].1 < NSLOTS
    ensures Addr(sb, y, y.owner[a].0, y.owner[a].1) == a
  {
    hide SlotAddr, Mapped, SlotsOwned;
  }

  /** A missing slot is served by a new block. */
  lemma {:induction false} MissingServed(sb: Super, x: State, y: State, i: nat, w: set<nat>, j: nat)
    requires Grew(sb, x, y, i, w) && j in Missing(sb, x, i, w)
    ensures var a := Addr(sb, y, i, j); a in y.owner && a !in x.owner && y.owner[a].1 == j
  {
    hide SlotAddr, Mapped;
    var a := Addr(sb, y, i, j);
    assert a in y.owner && y.owner[a] == (i, j);
    assert forall c | c in x.owner && x.owner[c] == (i, j) :: Addr(sb, x, i, j) == c;
  }

  /** One free block is taken for every missing slot. */
  lemma {:induction false} GrewSize(sb: Super, x: State, y: State, i: nat, w: set<nat>)
    requires Grew(sb, x, y, i, w)
    ensures |y.owner.Keys - x.owner.Keys| == |Missing(sb, x, i, w)|
    ensures FreeBlocks(sb, x.owner) == FreeBlocks(sb, y.owner) + (y.owner.Keys - x.owner.Keys)
    ensures |FreeBlocks(sb, x.owner)| == |FreeBlocks(sb, y.owner)| + |Missing(sb, x, i, w)|
  {
    hide SlotAddr, Mapped, SlotsOwned, OwnersSlot, TableShape, Lowest, Missing, SlotsFor;
    var added, m := y.owner.Keys - x.owner.Keys, Missing(sb, x, i, w);
    var f := map a | a in added :: y.owner[a].1;
    var g := map j | j in m :: GrownAddr(sb, x, y, i, w, j);
    forall a | a in added
      ensures sb.Data(a) && f[a] in m && g[f[a]] == a
    {
      ServesMissing(sb, x, y, i, w, a);
    }
    forall j | j in m
      ensures g[j] in added && f[g[j]] == j
    {
      MissingServed(sb, x, y, i, w, j);
    }
    SameCount(added, m, f, g);
    FreeSplits(sb, x.owner, y.owner, i, w);
  }

  ghost function GrownAddr(sb: Super, x: State, y: State, i: nat, w: set<nat>, j: nat): (a: nat)
    requires Grew(sb, x, y, i, w) && j in Missing(sb, x, i, w)
  {
    Addr(sb, y, i, j)
  }

  lemma {:induction false} FreeSplits(sb: Super, o: Owner, o': Owner, i: nat, w: set<nat>)
    requires Taken(o, o', i, w) && forall a | a in o'.Keys - o.Keys :: sb.Data(a)
    ensures FreeBlocks(sb, o) == FreeBlocks(sb, o') + (o'.Keys - o.Keys)
    ensures |FreeBlocks(sb, o)| == |FreeBlocks(sb, o')| + |o'.Keys - o.Keys|
  {
    var added := o'.Keys - o.Keys;
    assert FreeBlocks(sb, o) == FreeBlocks(sb, o') + added;
    assert FreeBlocks(sb, o') !! added;
  }

  lemma {:induction false} MissingSplits(sb: Super, x: State, y: State, i: nat, v: set<nat>, w: set<nat>)
    requires Grew(sb, x, y, i, v) && forall j | j in w :: j < NSLOTS
    ensures Missing(sb, x, i, v + w) == Missing(sb, x, i, v) + Missing(sb, y, i, w)
    ensures Missing(sb, x, i, v) !! Missing(sb, y, i, w)
  {
    hide SlotAddr, Mapped, SlotsOwned, OwnersSlot, Taken, Lowest;
    var l, r := Missing(sb, x, i, v + w), Missing(sb, x, i, v) + Missing(sb, y, i, w);
    forall j
      ensures j in l <==> j in r
    {
    }
  }

  /** Too few blocks for the rest is too few for the whole. */
  lemma {:induction false} StuckLater(sb: Super, x: State, y: State, i: nat, v: set<nat>, w: set<nat>)
    requires Grew(sb, x, y, i, v) && forall j | j in w :: j < NSLOTS
    ensures |FreeBlocks(sb, y.owner)| < |Missing(sb, y, i, w)| <==>
            |FreeBlocks(sb, x.owner)| < |Missing(sb, x, i, v + w)|
  {
    hide SlotAddr, Mapped, SlotsOwned, OwnersSlot, Taken, Lowest, Grew, Missing, FreeBlocks;
    GrewSize(sb, x, y, i, v);
    MissingSplits(sb, x, y, i, v, w);
  }

  // ---------- what is logged ----------

  /** The data blocks of the slots w. */
  ghost function DataOf(sb: Super, x: State, i: nat, w: set<nat>): (s: set<nat>)
    requires TableShape(sb, x.blocks, x.tab) && i < |x.tab|
  {
    set j | j in w && j != ROOT && j < NSLOTS :: Addr(sb, x, i, j)
  }

  ghost function MapsOf(sb: Super, added: set<nat>): (s: set<nat>) {
    set a | a in added :: sb.BBlock(a)
  }

  /** Some new block is named by an entry of the indirect block. */
  ghost predicate EntryNew(o: Owner, o': Owner) {
    exists a | a in o' && a !in o :: o'[a].1 > ROOT
  }

  ghost function EntryRoot(o: Owner, o': Owner, root: nat): (e: set<nat>) {
    if EntryNew(o, o') then {root} else {}
  }

  /** Allocation logs the new blocks, the free-map block of each, and the indirect block if it got an
      entry. */
  ghost function AllocLogs(sb: Super, x: State, y: State, i: nat): (s: set<nat>)
    requires TableShape(sb, y.blocks, y.tab) && i < |y.tab|
  {
    var added := y.owner.Keys - x.owner.Keys;
    added + MapsOf(sb, added) + EntryRoot(x.owner, y.owner, y.tab[i].addrs[ROOT])
  }

  /** Writing data through the slots w logs the data blocks and what allocation logs. */
  ghost function WriteLogs(sb: Super, x: State, y: State, i: nat, w: set<nat>): (s: set<nat>)
    requires TableShape(sb, y.blocks, y.tab) && i < |y.tab|
  {
    DataOf(sb, y, i, w) + AllocLogs(sb, x, y, i)
  }

  lemma {:induction false} AllocNone(sb: Super, x: State, i: nat)
    requires TableShape(sb, x.blocks, x.tab) && i < |x.tab|
    ensures AllocLogs(sb, x, x, i) == {}
  {
    assert x.owner.Keys - x.owner.Keys == {};
  }

  lemma {:induction false} AllocOne(sb: Super, x: State, y: State, i: nat, j: nat, a: nat)
    requires TableShape(sb, y.blocks, y.tab) && i < |y.tab| && a !in x.owner && y.owner == x.owner[a := (i, j)]
    ensures AllocLogs(sb, x, y, i) == {sb.BBlock(a), a} + if j > ROOT then {y.tab[i].addrs[ROOT]} else {}
  {
    assert y.owner.Keys - x.owner.Keys == {a};
    assert MapsOf(sb, {a}) == {sb.BBlock(a)};
    assert y.owner[a].1 == j;
  }

  lemma {:induction false} AllocTwice(sb: Super, x: State, y: State, z: State, i: nat, v: set<nat>, w: set<nat>)
    requires Grew(sb, x, y, i, v) && Grew(sb, y, z, i, w)
    ensures AllocLogs(sb, x, z, i) == AllocLogs(sb, x, y, i) + AllocLogs(sb, y, z, i)
  {
    hide SlotAddr, Mapped, SlotsOwned, OwnersSlot, Taken, Lowest, MapsOf, EntryNew;
    NewUnion(sb, x, y, z, i, v, w);
    MapsUnion(sb, y.owner.Keys - x.owner.Keys, z.owner.Keys - y.owner.Keys);
  }

  lemma {:induction false} DataLater(sb: Super, x: State, y: State, i: nat, v: set<nat>, w: set<nat>)
    requires Grew(sb, x, y, i, w) && (forall j | j in v :: j < NSLOTS && Addr(sb, x, i, j) != 0)
    ensures DataOf(sb, y, i, v) == DataOf(sb, x, i, v)
  {
    hide SlotAddr, Mapped, SlotsOwned, OwnersSlot, Taken, Lowest;
  }

  lemma {:induction false} DataUnion(sb: Super, y: State, i: nat, v: set<nat>, w: set<nat>)
    requires TableShape(sb, y.blocks, y.tab) && i < |y.tab|
    ensures DataOf(sb, y, i, v + w) == DataOf(sb, y, i, v) + DataOf(sb, y, i, w)
  {
    hide SlotAddr;
  }

  lemma {:induction false} MapsUnion(sb: Super, a: set<nat>, b: set<nat>)
    ensures MapsOf(sb, a + b) == MapsOf(sb, a) + MapsOf(sb, b)
  {
  }

  lemma {:induction false} NewUnion(sb: Super, x: State, y: State, z: State, i: nat, v: set<nat>, w: set<nat>)
    requires Grew(sb, x, y, i, v) && Grew(sb, y, z, i, w)
    ensures z.owner.Keys - x.owner.Keys == (y.owner.Keys - x.owner.Keys) + (z.owner.Keys - y.owner.Keys)
    ensures EntryNew(x.owner, z.owner) <==> EntryNew(x.owner, y.owner) || EntryNew(y.owner, z.owner)
    ensures EntryNew(x.owner, y.owner) ==> y.tab[i].addrs[ROOT] == z.tab[i].addrs[ROOT]
  {
    hide Mapped, SlotsOwned, OwnersSlot, TableShape, Lowest;
    if EntryNew(x.owner, y.owner) {
      var a :| a in y.owner && a !in x.owner && y.owner[a].1 > ROOT;
      RootNamed(sb, y, z, i, w, a);
      assert z.owner[a].1 > ROOT;
    }
    if EntryNew(y.owner, z.owner) {
      var a :| a in z.owner && a !in y.owner && z.owner[a].1 > ROOT;
      assert a !in x.owner;
    }
    if EntryNew(x.owner, z.owner) {
      var a :| a in z.owner && a !in x.owner && z.owner[a].1 > ROOT;
      assert a in y.owner ==> y.owner[a].1 > ROOT;
    }
  }

  /** A block named by an indirect entry means an indirect block, which stays. */
  lemma {:induction false} RootNamed(sb: Super, y: State, z: State, i: nat, w: set<nat>, a: nat)
    requires Grew(sb, y, z, i, w) && a in y.owner && y.owner[a].0 == i && y.owner[a].1 > ROOT
    ensures y.tab[i].addrs[ROOT] != 0 && z.tab[i].addrs[ROOT] == y.tab[i].addrs[ROOT]
  {
    hide SlotAddr, Mapped, SlotsOwned, OwnersSlot, Lowest, Taken;
    OwnerAddr(sb, y, a);
    RootSlot(sb, y, i, y.owner[a].1);
    RootSlot(sb, z, i, ROOT);
  }

  lemma {:induction false} RootSlot(sb: Super, y: State, i: nat, j: nat)
    requires TableShape(sb, y.blocks, y.tab) && i < |y.tab| && ROOT <= j < NSLOTS
    ensures Addr(sb, y, i, ROOT) == y.tab[i].addrs[ROOT]
    ensures Addr(sb, y, i, j) != 0 ==> y.tab[i].addrs[ROOT] != 0
  {
  }

  lemma {:induction false} LogsTwice(sb: Super, x: State, y: State, z: State, i: nat, v: set<nat>, w: set<nat>)
    requires Grew(sb, x, y, i, v) && Grew(sb, y, z, i, w)
    ensures WriteLogs(sb, x, z, i, v + w) == WriteLogs(sb, x, y, i, v) + WriteLogs(sb, y, z, i, w)
  {
    hide SlotAddr, Mapped, SlotsOwned, OwnersSlot, Taken, Lowest, DataOf, AllocLogs;
    DataLater(sb, y, z, i, v, w);
    DataUnion(sb, z, i, v, w);
    AllocTwice(sb, x, y, z, i, v, w);
  }

  /** Writes that touch no slot keep the growth. */
  lemma {:induction false} GrewKept(sb: Super, x: State, y: State, z: State, i: nat, w: set<nat>)
    requires Grew(sb, x, y, i, w) && Sound(sb, z) && z.owner == y.owner && |z.tab| == |y.tab|
    requires SlotsKept(sb, y.blocks, y.tab, z.blocks, z.tab)
    ensures Grew(sb, x, z, i, w)
  {
    hide SlotAddr, Mapped, SlotsOwned, OwnersSlot, Taken, Lowest;
    forall i', j | 0 <= i' < |x.tab| && 0 <= j < NSLOTS && (i' != i || Addr(sb, x, i', j) != 0)
      ensures Addr(sb, z, i', j) == Addr(sb, x, i', j)
    {
      assert Addr(sb, y, i', j) == Addr(sb, x, i', j);
    }
  }

  lemma {:induction false} LogsKept(sb: Super, x: State, y: State, z: State, i: nat, w: set<nat>)
    requires Grew(sb, x, y, i, w) && Sound(sb, z) && z.owner == y.owner && |z.tab| == |y.tab|
    requires SlotsKept(sb, y.blocks, y.tab, z.blocks, z.tab)
    ensures WriteLogs(sb, x, z, i, w) == WriteLogs(sb, x, y, i, w)
  {
    hide SlotAddr, Mapped, SlotsOwned, OwnersSlot, Taken, Lowest, EntryNew, MapsOf;
    forall j | 0 <= j < NSLOTS
      ensures Addr(sb, z, i, j) == Addr(sb, y, i, j)
    {
    }
    RootSlot(sb, y, i, ROOT);
    RootSlot(sb, z, i, ROOT);
    assert DataOf(sb, z, i, w) == DataOf(sb, y, i, w);
  }

  // ---------- how much is logged ----------

  /** Blocks spanned by n > 0 bytes from off. */
  function Span(off: nat, n: nat): (s: nat)
    requires n > 0
  {
    (off + n - 1) / BSIZE - off / BSIZE + 1
  }

  /** The slots of the data itself. */
  ghost function DataSlots(off: nat, n: nat): (w: set<nat>)
    requires n > 0
  {
    set bn | off / BSIZE <= bn <= (off + n - 1) / BSIZE :: SlotOf(bn)
  }

  lemma {:induction false} DataSlotsSize(off: nat, n: nat)
    requires n > 0
    ensures |DataSlots(off, n)| == Span(off, n)
  {
    var lo, hi := off / BSIZE, (off + n - 1) / BSIZE + 1;
    var bns := Interval(lo, hi);
    var f := map bn | bn in bns :: SlotOf(bn);
    var g := map j | j in DataSlots(off, n) :: if j < NDIRECT then j else j - 1;
    SameCount(bns, DataSlots(off, n), f, g);
  }

  lemma {:induction false} MapsSize(sb: Super, a: set<nat>)
    ensures |MapsOf(sb, a)| <= |a|
  {
    if a != {} {
      var x :| x in a;
      MapsSize(sb, a - {x});
      assert MapsOf(sb, a) == MapsOf(sb, a - {x}) + {sb.BBlock(x)};
    } else {
      assert MapsOf(sb, a) == {};
    }
  }

  lemma {:induction false} DataSize(sb: Super, y: State, i: nat, w: set<nat>)
    requires TableShape(sb, y.blocks, y.tab) && i < |y.tab|
    ensures |DataOf(sb, y, i, w)| <= |w - {ROOT}|
  {
    hide SlotAddr;
    var f := map j | j in w && j < NSLOTS :: Addr(sb, y, i, j);
    var v := set j | j in w && j < NSLOTS && j != ROOT;
    forall a | a in DataOf(sb, y, i, w)
      ensures exists j | j in v :: f[j] == a
    {
      var j :| j in w && j != ROOT && j < NSLOTS && Addr(sb, y, i, j) == a;
      assert j in v && f[j] == a;
    }
    ImageSize(v, f, DataOf(sb, y, i, w));
    Smaller(v, w - {ROOT});
  }

  /** Data blocks and their free-map blocks: a partial first block is below the size, hence mapped
      already, so it costs one; every other block costs at most two. */
  function DataCost(off: nat, n: nat): (c: nat) {
    if n == 0 then 0 else if off % BSIZE != 0 then 2 * Span(off, n) - 1 else 2 * Span(off, n)
  }

  /** The data, a free-map block for every missing slot, and the indirect block. */
  lemma {:induction false} LogsSize(sb: Super, x: State, y: State, i: nat, off: nat, n: nat)
    requires Grew(sb, x, y, i, Wanted(off, n))
    ensures |WriteLogs(sb, x, y, i, Wanted(off, n))| <=
            if n == 0 then 0 else Span(off, n) + |Missing(sb, x, i, Wanted(off, n))| + 1
  {
    hide SlotAddr, Mapped, SlotsOwned, OwnersSlot, Taken, Lowest, Missing, DataOf, Wanted, WriteLogs;
    var w := Wanted(off, n);
    AddedWithin(sb, x, y, i, w);
    LogsUnion(sb, x, y, i, w);
    GrewSize(sb, x, y, i, w);
    DataSize(sb, y, i, w);
    if n > 0 {
      WantedSize(off, n);
    } else {
      NothingWanted(sb, x, i, off);
    }
  }

  lemma {:induction false} LogsUnion(sb: Super, x: State, y: State, i: nat, w: set<nat>)
    requires TableShape(sb, y.blocks, y.tab) && i < |y.tab|
    requires y.owner.Keys - x.owner.Keys <= DataOf(sb, y, i, w) + {y.tab[i].addrs[ROOT]}
    requires y.owner.Keys - x.owner.Keys == {} ==> !EntryNew(x.owner, y.owner)
    ensures var d, added := DataOf(sb, y, i, w), y.owner.Keys - x.owner.Keys;
            && |WriteLogs(sb, x, y, i, w)| <= |d| + |added| + 1
            && (|d| == |added| == 0 ==> |WriteLogs(sb, x, y, i, w)| == 0)
  {
    hide SlotAddr, MapsOf, DataOf, EntryNew;
    var d, added := DataOf(sb, y, i, w), y.owner.Keys - x.owner.Keys;
    MapsSize(sb, added);
    var root := y.tab[i].addrs[ROOT];
    var e := EntryRoot(x.owner, y.owner, root);
    UnionSize(d, added, MapsOf(sb, added), e, root);
    SameUnion(d, added, MapsOf(sb, added), e);
  }

  lemma {:induction false} SameUnion(d: set<nat>, added: set<nat>, maps: set<nat>, e: set<nat>)
    ensures d + (added + maps + e) == d + added + maps + e
  {
  }

  lemma {:induction false} UnionSize(d: set<nat>, added: set<nat>, maps: set<nat>, e: set<nat>, root: nat)
    requires added <= d + {root} && e <= {root}
    ensures |d + added + maps + e| <= |d| + |maps| + 1
    ensures |d| == |maps| == |added| == |e| == 0 ==> |d + added + maps + e| == 0
  {
    var logs := d + added + maps + e;
    var all := d + maps;
    assert |all| <= |d| + |maps|;
    assert |all + {root}| <= |all| + 1;
    Smaller(logs, all + {root});
    if |d| == |maps| == |added| == |e| == 0 {
      assert logs == {};
    }
  }

  lemma {:induction false} WantedSize(off: nat, n: nat)
    requires n > 0
    ensures |Wanted(off, n) - {ROOT}| <= Span(off, n)
  {
    DataSlotsSize(off, n);
    Smaller(Wanted(off, n) - {ROOT}, DataSlots(off, n));
  }

  lemma {:induction false} NothingWanted(sb: Super, x: State, i: nat, off: nat)
    requires TableShape(sb, x.blocks, x.tab) && i < |x.tab|
    ensures Wanted(off, 0) == {} && Wanted(off, 0) - {ROOT} == {} && Missing(sb, x, i, Wanted(off, 0)) == {}
  {
  }

  /** A new block holds data of the range or is the indirect block. */
  lemma {:induction false} AddedWithin(sb: Super, x: State, y: State, i: nat, w: set<nat>)
    requires Grew(sb, x, y, i, w)
    ensures y.owner.Keys - x.owner.Keys <= DataOf(sb, y, i, w) + {y.tab[i].addrs[ROOT]}
    ensures y.owner.Keys - x.owner.Keys == {} ==> !EntryNew(x.owner, y.owner)
  {
    hide SlotAddr, Mapped, SlotsOwned, OwnersSlot, Lowest, Missing;
    RootSlot(sb, y, i, ROOT);
    forall a | a in y.owner && a !in x.owner
      ensures a in DataOf(sb, y, i, w) + {y.tab[i].addrs[ROOT]}
    {
      ServesMissing(sb, x, y, i, w, a);
    }
    if EntryNew(x.owner, y.owner) {
      var a :| a in y.owner && a !in x.owner && y.owner[a].1 > ROOT;
      assert a in y.owner.Keys - x.owner.Keys;
    }
  }

  /** At most one slot per block and the indirect one is missing, and not the one of a partial first
      block. */
  lemma {:induction false} MissingSize(sb: Super, x: State, i: nat, off: nat, n: nat)
    requires Sound(sb, x) && i < |x.tab| && off <= x.tab[i].size && 0 < n && off + n <= MAXFILE * BSIZE
    ensures |Missing(sb, x, i, Wanted(off, n))| <= Span(off, n) + 1 - if off % BSIZE != 0 then 1 else 0
  {
    hide SlotAddr, SlotsOwned, OwnersSlot;
    var m, d := Missing(sb, x, i, Wanted(off, n)), DataSlots(off, n);
    DataSlotsSize(off, n);
    if off % BSIZE != 0 {
      var first := SlotOf(off / BSIZE);
      assert Mapped(x.blocks, x.tab[i]);
      assert Addr(sb, x, i, first) != 0;
      assert first in d;
      Smaller(m, d - {first} + {ROOT});
    } else {
      Smaller(m, d + {ROOT});
    }
  }

  /** A write logs at most DataCost blocks and two for the indirect block. */
  lemma {:induction false} WriteCost(sb: Super, x: State, y: State, i: nat, off: nat, n: nat)
    requires Grew(sb, x, y, i, Wanted(off, n)) && off <= x.tab[i].size && off + n <= MAXFILE * BSIZE
    ensures |WriteLogs(sb, x, y, i, Wanted(off, n))| <= DataCost(off, n) + 2
  {
    hide SlotAddr, SlotsOwned, OwnersSlot, Mapped, Taken, Lowest, Missing, WriteLogs, Wanted;
    LogsSize(sb, x, y, i, off, n);
    if n > 0 {
      MissingSize(sb, x, i, off, n);
    }
  }
}
