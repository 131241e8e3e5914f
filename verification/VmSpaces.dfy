/** vm.c: making, freeing and copying whole address spaces. */
module VmSpaces {
  import opened Bytes
  import opened Options
  import opened Sets
  import opened PageTables
  import opened Kalloc
  import opened Vm
  import opened VmUser

  // ---------- freevm ----------

  ghost function TabsBelow(tabs: map<nat, nat>, i: nat): (s: set<nat>) {
    set j | j in tabs && j < i :: tabs[j]
  }

  lemma {:induction false} TabsStep(tabs: map<nat, nat>, i: nat)
    ensures i in tabs ==> TabsBelow(tabs, i + 1) == TabsBelow(tabs, i) + {tabs[i]}
    ensures i !in tabs ==> TabsBelow(tabs, i + 1) == TabsBelow(tabs, i)
  {
  }

  /** Without user pages, a space is its directory and its tables. */
  lemma {:induction false} OnlyTables(mem: Memory, sp: Space)
    requires SpaceOK(mem, sp) && Frames(sp.flat, 0, USER) == {}
    ensures sp.role.Keys == {sp.dir} + TabsBelow(sp.tabs, PGWORDS) && sp.dir !in TabsBelow(sp.tabs, PGWORDS)
    ensures TabsBelow(sp.tabs, PGWORDS) <= sp.role.Keys && TablePages(sp) <= sp.role.Keys
  {
    RolesAre(mem, sp);
    forall n | n in sp.role
      ensures n in {sp.dir} + TabsBelow(sp.tabs, PGWORDS)
    {
      assert RoleOK(sp, n) && n in TablePages(sp);
    }
  }

  /** Tables are distinct pages. */
  lemma {:induction false} TabsApart(mem: Memory, sp: Space, i: nat)
    requires SpaceOK(mem, sp) && i in sp.tabs
    ensures sp.tabs[i] !in TabsBelow(sp.tabs, i) && sp.tabs[i] != sp.dir && sp.tabs[i] in sp.role
  {
    forall j | j in sp.tabs && j < i
      ensures sp.tabs[j] != sp.tabs[i]
    {
      assert sp.role[sp.tabs[j]] == Tab(j) && sp.role[sp.tabs[i]] == Tab(i);
    }
  }

  lemma {:induction false} TabsNone(tabs: map<nat, nat>)
    ensures TabsBelow(tabs, 0) == {}
  {
  }

  lemma {:induction false} TabsWithin(tabs: map<nat, nat>, i: nat)
    requires i <= PGWORDS
    ensures TabsBelow(tabs, i) <= TabsBelow(tabs, PGWORDS)
  {
  }

  method FreeTables(k: Kmem, d: nat, ghost sp: Space)
    requires k.Valid() && Owns(k, sp) && d == sp.dir && Frames(sp.flat, 0, USER) == {}
    modifies k
    ensures k.Valid() && k.Free() == old(k.Free()) + TabsBelow(sp.tabs, PGWORDS)
    ensures Outside(old(k.mem), k.mem, TabsBelow(sp.tabs, PGWORDS))
  {
    hide Chained, NoRepeats, InRange, Set, SpaceOK, TablePages, Frames, TabsBelow;
    ghost var m := k.mem;
    OnlyTables(m, sp);
    TabsNone(sp.tabs);
    for i := 0 to PGWORDS
      invariant k.Valid() && k.Free() == old(k.Free()) + TabsBelow(sp.tabs, i)
      invariant Outside(m, k.mem, TabsBelow(sp.tabs, i))
    {
      DirEntry(m, sp, i);
      TabsStep(sp.tabs, i);
      TabsWithin(sp.tabs, i);
      assert k.mem[d] == m[d];
      if Present(k.mem[d][i]) {
        TabsApart(m, sp, i);
        var ok := k.Kfree(PageOf(k.mem[d][i]));
      }
    }
  }

  /** Everything the space owned becomes free. */
  method Freevm(k: Kmem, d: nat, ghost sp: Space) returns (ok: bool)
    requires k.Valid() && Owns(k, sp) && d == sp.dir
    modifies k
    ensures k.Valid() && ok && k.Free() == old(k.Free()) + sp.role.Keys && Outside(old(k.mem), k.mem, k.Free())
  {
    hide Chained, NoRepeats, InRange, Set, SpaceOK, TablePages, Minus, Frames, TabsBelow;
    var sz;
    ghost var r;
    sz, ok, r := Deallocuvm(k, d, sp, KERNBASE, 0);
    assert RoundUp(0) == 0 && RoundUp(KERNBASE) == USER;
    UserGone(sp.flat);
    ApartFromSpare(k, r, 0, USER);
    FramesWithin(old(k.mem), sp);
    OnlyTables(k.mem, r);
    FreeTables(k, d, r);
    ok := k.Kfree(d);
  }

  lemma {:induction false} UserGone(flat: map<nat, uint32>)
    ensures Frames(Minus(flat, 0, USER), 0, USER) == {}
  {
  }

  lemma {:induction false} FramesWithin(mem: Memory, sp: Space)
    requires SpaceOK(mem, sp)
    ensures Frames(sp.flat, 0, USER) <= sp.role.Keys && sp.dir !in Frames(sp.flat, 0, USER)
  {
  }

  // ---------- setupkvm ----------

  const EXTMEM := 0x10_0000
  const PHYSTOP := 0xE00_0000
  const DEVSPACE := 0xFE00_0000

  /** A row of kmap. */
  datatype Kmap = Kmap(virt: uint32, physStart: uint32, size: nat, perm: nat)

  /** The rows, for kernel data at physical address kd. Sizes are modulo two to the 32. */
  function Kmaps(kd: nat): (rows: seq<Kmap>)
    requires KernelData(kd)
    ensures |rows| == 4
  {
    [Kmap(KERNBASE, 0, EXTMEM, PTE_W),
     Kmap(KERNBASE + EXTMEM, EXTMEM, kd - EXTMEM, 0),
     Kmap(KERNBASE + kd, kd, PHYSTOP - kd, PTE_W),
     Kmap(DEVSPACE, DEVSPACE, 0x1_0000_0000 - DEVSPACE, PTE_W)]
  }

  /** The linker puts data on a page boundary after the kernel's text. */
  predicate KernelData(kd: nat) {
    EXTMEM < kd < PHYSTOP && kd % PGSIZE == 0
  }

  /** What the kernel half of every page table is meant to be: all physical memory at KERNBASE, with
      the text read-only, and the devices at their own addresses. */
  predicate KernelPage(v: nat) {
    USER <= v < USER + PHYSTOP / PGSIZE || DEVSPACE / PGSIZE <= v < VPAGES
  }

  function KernelEntry(kd: nat, v: nat): (w: uint32)
    requires KernelPage(v)
  {
    if v >= DEVSPACE / PGSIZE then Pte(v, PTE_W)
    else if USER + EXTMEM / PGSIZE <= v < USER + kd / PGSIZE then Pte(v - USER, 0)
    else Pte(v - USER, PTE_W)
  }

  ghost predicate KernelMapped(kd: nat, flat: map<nat, uint32>) {
    && (forall v | v in flat && v >= USER :: KernelPage(v) && flat[v] == KernelEntry(kd, v))
    && (forall v: nat | KernelPage(v) :: v in flat)
  }

  /** The flat map after the first i rows. */
  function RowsFlat(kd: nat, i: nat): (flat: map<nat, uint32>)
    requires KernelData(kd) && i <= 4
  {
    if i == 0 then map[]
    else
      var row := Kmaps(kd)[i - 1];
      Plus(RowsFlat(kd, i - 1), row.virt / PGSIZE, Count(row.virt, row.size), row.physStart / PGSIZE, row.perm)
  }

  /** Rows come in the order of their addresses: the first i cover the kernel pages below this one. */
  function RowsEnd(kd: nat, i: nat): (v: nat) {
    if i == 0 then USER
    else if i == 1 then USER + EXTMEM / PGSIZE
    else if i == 2 then USER + kd / PGSIZE
    else if i == 3 then USER + PHYSTOP / PGSIZE
    else VPAGES
  }

  lemma {:induction false} RowIs(kd: nat, i: nat)
    requires KernelData(kd) && i < 4
    ensures var row := Kmaps(kd)[i];
            && row.size > 0 && row.virt + row.size <= 0x1_0000_0000
            && row.physStart % PGSIZE == 0 && row.perm == (if i == 1 then 0 else PTE_W)
            && row.virt / PGSIZE == (if i < 3 then RowsEnd(kd, i) else DEVSPACE / PGSIZE)
            && row.virt / PGSIZE + Count(row.virt, row.size) == RowsEnd(kd, i + 1)
            && row.physStart / PGSIZE == row.virt / PGSIZE - (if i < 3 then USER else 0)
            && row.physStart / PGSIZE + Count(row.virt, row.size) <= VPAGES && row.virt / PGSIZE >= USER
  {
  }

  /** After i rows, exactly the kernel pages below RowsEnd are mapped, each to its proper entry. */
  lemma {:induction false} RowsAt(kd: nat, i: nat, v: nat)
    requires KernelData(kd) && i <= 4
    ensures v in RowsFlat(kd, i) <==> KernelPage(v) && v < RowsEnd(kd, i)
    ensures v in RowsFlat(kd, i) ==> RowsFlat(kd, i)[v] == KernelEntry(kd, v)
  {
    hide Kmaps, Pte, Count;
    if i > 0 {
      RowIs(kd, i - 1);
      RowsAt(kd, i - 1, v);
    }
  }

  /** No row overlaps an earlier one, so mapping never finds a page already mapped. */
  lemma {:induction false} RowsApart(kd: nat, i: nat)
    requires KernelData(kd) && i < 4
    ensures forall v | v in RowsFlat(kd, i) :: USER <= v < Kmaps(kd)[i].virt / PGSIZE
  {
    hide Kmaps, RowsFlat;
    RowIs(kd, i);
    forall v | v in RowsFlat(kd, i)
      ensures USER <= v < Kmaps(kd)[i].virt / PGSIZE
    {
      RowsAt(kd, i, v);
    }
  }

  /** After the last row the kernel half is complete and the user half empty. */
  lemma {:induction false} RowsDone(kd: nat)
    requires KernelData(kd)
    ensures KernelMapped(kd, RowsFlat(kd, 4)) && forall v | v in RowsFlat(kd, 4) :: v >= USER
  {
    hide RowsFlat, KernelEntry;
    forall v: nat
      ensures v in RowsFlat(kd, 4) <==> KernelPage(v)
      ensures v in RowsFlat(kd, 4) ==> RowsFlat(kd, 4)[v] == KernelEntry(kd, v)
    {
      RowsAt(kd, 4, v);
    }
  }

  // ---------- the tables of the kernel half ----------

  /** The tables the first i rows need. */
  ghost function RowTabs(kd: nat, i: nat): (s: set<nat>)
    requires KernelData(kd) && i <= 4
  {
    if i == 0 then {}
    else
      var row := Kmaps(kd)[i - 1];
      RowTabs(kd, i - 1) + Tables(row.virt / PGSIZE, Count(row.virt, row.size))
  }

  lemma {:induction false} TablesIn(first: nat, j: nat, t: nat)
    ensures t in Tables(first, j) <==> j > 0 && first / PGWORDS <= t <= (first + j - 1) / PGWORDS
  {
    if j > 0 && first / PGWORDS <= t <= (first + j - 1) / PGWORDS {
      var u := if t == first / PGWORDS then first else t * PGWORDS;
      assert first <= u < first + j && u / PGWORDS == t;
    }
  }

  /** Tables 512 to 567 for physical memory, 1016 to 1023 for the devices. */
  lemma {:induction false} RowTabsIn(kd: nat, i: nat, t: nat)
    requires KernelData(kd) && i <= 4
    ensures i <= 3 ==> (t in RowTabs(kd, i) <==> USER / PGWORDS <= t && t * PGWORDS < RowsEnd(kd, i))
    ensures i == 4 ==> (t in RowTabs(kd, i) <==> 512 <= t < 568 || 1016 <= t < 1024)
  {
    hide Kmaps, Count, Tables;
    if i > 0 {
      RowIs(kd, i - 1);
      RowTabsIn(kd, i - 1, t);
      var row := Kmaps(kd)[i - 1];
      TablesIn(row.virt / PGSIZE, Count(row.virt, row.size), t);
    }
  }

  lemma {:induction false} RowTabsSize(kd: nat)
    requires KernelData(kd)
    ensures |RowTabs(kd, 4)| == 64 && forall t | t in RowTabs(kd, 4) :: t >= 512
  {
    hide RowTabs, Interval;
    forall t: nat
      ensures t in RowTabs(kd, 4) <==> 512 <= t < 568 || 1016 <= t < 1024
    {
      RowTabsIn(kd, 4, t);
    }
    assert RowTabs(kd, 4) == Interval(512, 568) + Interval(1016, 1024);
    Joined(Interval(512, 568), Interval(1016, 1024));
  }

  lemma {:induction false} RowTabsStep(kd: nat, i: nat, tabs: map<nat, nat>, tabs': map<nat, nat>, before: nat,
                                       after: nat)
    requires KernelData(kd) && i < 4 && tabs.Keys == RowTabs(kd, i)
    requires Kmaps(kd)[i].size > 0
    requires var row := Kmaps(kd)[i];
             Spent(tabs, tabs', before, after, row.virt / PGSIZE, Count(row.virt, row.size), 0)
    ensures tabs'.Keys == RowTabs(kd, i + 1) && before + |RowTabs(kd, i)| == after + |RowTabs(kd, i + 1)|
  {
    hide Kmaps, Count, Tables;
    var row := Kmaps(kd)[i];
    var t := Tables(row.virt / PGSIZE, Count(row.virt, row.size));
    Joined(tabs.Keys, t - tabs.Keys);
    assert tabs.Keys + (t - tabs.Keys) == tabs.Keys + t;
  }

  lemma {:induction false} RowTabsStuck(kd: nat, i: nat, tabs: map<nat, nat>)
    requires KernelData(kd) && i < 4 && tabs.Keys == RowTabs(kd, i) && Kmaps(kd)[i].size > 0
    ensures var row := Kmaps(kd)[i];
            |RowTabs(kd, i)| + |Absent(tabs, row.virt / PGSIZE, Count(row.virt, row.size))| <= 64
  {
    hide Kmaps, Count, Tables;
    var row := Kmaps(kd)[i];
    var a := Absent(tabs, row.virt / PGSIZE, Count(row.virt, row.size));
    Joined(RowTabs(kd, i), a);
    RowTabsGrow(kd, i + 1);
    Smaller(RowTabs(kd, i) + a, RowTabs(kd, 4));
    RowTabsSize(kd);
  }

  lemma {:induction false} RowTabsGrow(kd: nat, i: nat)
    requires KernelData(kd) && i <= 4
    ensures RowTabs(kd, i) <= RowTabs(kd, 4)
    decreases 4 - i
  {
    hide Kmaps, Count, Tables;
    if i < 4 {
      RowTabsGrow(kd, i + 1);
    }
  }

  /** The pages a bare address space takes: the directory and 64 tables. */
  const KERNEL_PAGES := 65

  /** A cleared directory. */
  ghost function Bare(d: nat): (sp: Space) {
    Space(d, map[], map[], map[d := Dir])
  }

  lemma {:induction false} BareOK(mem: Memory, d: nat)
    requires d < |mem| && mem[d] == Zeros()
    ensures SpaceOK(mem, Bare(d)) && TablePages(Bare(d)) == {d}
  {
  }

  /** A new address space with the kernel mapped and nothing else; or None, with every page back,
      exactly when fewer than 65 pages are free. */
  method Setupkvm(k: Kmem, kd: nat) returns (d: Option<nat>, ghost sp: Space)
    requires k.Valid() && KernelData(kd)
    modifies k
    ensures k.Valid() && Outside(old(k.mem), k.mem, old(k.Free()))
    ensures d.None? ==> k.Free() == old(k.Free())
    ensures d.None? <==> |old(k.free)| < KERNEL_PAGES
    ensures d.Some? ==> Owns(k, sp) && sp.dir == d.value && Spare(k, sp) == old(k.Free())
    ensures d.Some? ==> KernelMapped(kd, sp.flat) && forall v | v in sp.flat :: v >= USER
    ensures d.Some? ==> |k.free| == |old(k.free)| - KERNEL_PAGES && forall t | t in sp.tabs :: t >= 512
  {
    hide Chained, NoRepeats, InRange, Set, SpaceOK, TablePages, RowsFlat, KernelMapped, Owns, Outside, RowTabs, Spare;
    d, sp := NewDirectory(k);
    if d.None? {
      return;
    }
    RowsNone(kd);
    for i := 0 to 4
      invariant Rowing(k, sp, d.value, old(k.mem), old(k.Free()), kd, i, |old(k.free)|)
    {
      var ok;
      ok, sp := MapRow(k, d.value, sp, kd, i, old(k.mem), old(k.Free()), |old(k.free)|);
      if !ok {
        ghost var m := k.mem;
        ok := Freevm(k, d.value, sp);
        OutsideTwice(old(k.mem), m, k.mem, old(k.Free()));
        return None, sp;
      }
    }
    RowsDone(kd);
    RowTabsSize(kd);
  }

  /** The first i rows are mapped, and everything the space has came from s. */
  ghost predicate Rowing(k: Kmem, sp: Space, d: nat, m0: Memory, s: set<nat>, kd: nat, i: nat, before: nat)
    requires KernelData(kd) && i <= 4
    reads k
  {
    && k.Valid() && Owns(k, sp) && sp.dir == d && Spare(k, sp) == s && Outside(m0, k.mem, s)
    && sp.flat == RowsFlat(kd, i) && sp.tabs.Keys == RowTabs(kd, i) && before == |k.free| + 1 + |RowTabs(kd, i)|
  }

  method MapRow(k: Kmem, d: nat, ghost sp: Space, kd: nat, i: nat, ghost m0: Memory, ghost s: set<nat>,
                ghost before: nat) returns (ok: bool, ghost r: Space)
    requires KernelData(kd) && i < 4 && Rowing(k, sp, d, m0, s, kd, i, before)
    modifies k
    ensures ok ==> Rowing(k, r, d, m0, s, kd, i + 1, before)
    ensures !ok ==> before < KERNEL_PAGES && k.Valid() && Owns(k, r) && r.dir == d && Outside(m0, k.mem, s)
    ensures !ok ==> Pool(k, r) == s
  {
    hide Chained, NoRepeats, InRange, Set, SpaceOK, TablePages, RowsFlat, Plus, Kmaps, Owns, Outside, RowTabs, Absent,
         Spent;
    RowIs(kd, i);
    RowsApart(kd, i);
    RowsStep(kd, i);
    ghost var m, between := k.mem, |k.free|;
    RowTabsStuck(kd, i, sp.tabs);
    var row := Kmaps(kd)[i];
    var res;
    ghost var j;
    res, r, j := Mappages(k, d, sp, row.virt, row.size, row.physStart, row.perm);
    OutsideTwice(m0, m, k.mem, s);
    assert !res.Remap?;
    ok := res.Mapped?;
    if ok {
      RowTabsStep(kd, i, sp.tabs, r.tabs, between, |k.free|);
    } else {
      NoUserPages(k, r);
    }
  }

  method NewDirectory(k: Kmem) returns (d: Option<nat>, ghost sp: Space)
    requires k.Valid()
    modifies k
    ensures k.Valid() && Outside(old(k.mem), k.mem, old(k.Free()))
    ensures d.None? ==> k.Free() == old(k.Free())
    ensures d.None? <==> old(k.free) == []
    ensures d.Some? ==> Owns(k, sp) && sp == Bare(d.value) && Spare(k, sp) == old(k.Free())
    ensures d.Some? ==> |k.free| == |old(k.free)| - 1
  {
    hide Chained, NoRepeats, InRange, Set, SpaceOK, TablePages;
    d := k.Kalloc();
    if d.None? {
      sp := Bare(0);
      return;
    }
    FreeInRange(k);
    ghost var m := k.mem;
    k.mem := k.mem[d.value := Zeros()];
    StillChained(k, m);
    sp := Bare(d.value);
    BareOK(k.mem, d.value);
  }

  lemma {:induction false} RowsNone(kd: nat)
    requires KernelData(kd)
    ensures RowsFlat(kd, 0) == map[] && RowTabs(kd, 0) == {}
  {
  }

  lemma {:induction false} RowsStep(kd: nat, i: nat)
    requires KernelData(kd) && i < 4
    ensures var row := Kmaps(kd)[i];
            && row.size > 0 && row.physStart / PGSIZE + Count(row.virt, row.size) <= VPAGES && row.perm < PGSIZE
            && RowsFlat(kd, i + 1) == Plus(RowsFlat(kd, i), row.virt / PGSIZE, Count(row.virt, row.size),
                                           row.physStart / PGSIZE, row.perm)
  {
    RowIs(kd, i);
  }

  /** A space without user mappings owns only tables. */
  lemma {:induction false} NoUserPages(k: Kmem, sp: Space)
    requires Owns(k, sp) && forall v | v in sp.flat :: v >= USER
    ensures sp.role.Keys == TablePages(sp)
  {
    RolesAre(k.mem, sp);
  }

  // ---------- copyuvm ----------

  /** Virtual page v has the same flags and the same bytes in both spaces. */
  ghost predicate SamePage(mem: Memory, flat: map<nat, uint32>, mem': Memory, flat': map<nat, uint32>, v: nat) {
    && v in flat && v in flat' && Flags(flat'[v]) == Flags(flat[v])
    && PageOf(flat[v]) < |mem| && PageOf(flat'[v]) < |mem'| && mem'[PageOf(flat'[v])] == mem[PageOf(flat[v])]
  }

  /** The user pages of the copy are those below b, and they are copies. */
  ghost predicate Copied(mem: Memory, flat: map<nat, uint32>, mem': Memory, flat': map<nat, uint32>, b: nat) {
    && (forall v | v in flat' && v < USER :: v < b)
    && (forall v | 0 <= v < b :: SamePage(mem, flat, mem', flat', v))
  }

  /** Changes in s leave a space alone whose pages are not in s. */
  lemma {:induction false} Bystander(k: Kmem, m: Memory, sp: Space, s: set<nat>)
    requires SpaceOK(m, sp) && (forall n | n in sp.role :: k.lo <= n < k.hi) && Outside(m, k.mem, s)
    requires sp.role.Keys !! s && k.Free() <= s
    ensures Owns(k, sp)
  {
    RoleInMemory(m, sp);
    Elsewhere(m, k.mem, sp);
  }

  lemma {:induction false} CopiedStep(mem: Memory, flat: map<nat, uint32>, m: Memory, mem': Memory, flat': map<nat,
                                      uint32>,
                                      b: nat, n: nat, s: set<nat>)
    requires Copied(mem, flat, m, flat', b) && Outside(m, mem', s) && Frames(flat', 0, b) !! s
    requires b in flat && Present(flat[b]) && PageOf(flat[b]) < |mem| && n < |mem'| && n < VPAGES && b < USER
    requires b !in flat'
    requires mem'[n] == mem[PageOf(flat[b])]
    ensures Copied(mem, flat, mem', flat'[b := Pte(n, Flags(flat[b]))], b + 1)
  {
    var f := flat'[b := Pte(n, Flags(flat[b]))];
    forall v | 0 <= v < b + 1
      ensures SamePage(mem, flat, mem', f, v)
    {
      if v < b {
        assert SamePage(mem, flat, m, flat', v) && PageOf(flat'[v]) in Frames(flat', 0, b);
      } else {
        FlagsOdd(flat[b]);
      }
    }
  }

  lemma {:induction false} FlagsOdd(w: uint32)
    requires Present(w)
    ensures Flags(w) % 2 == 1
  {
  }

  lemma {:induction false} FramesAdd(flat: map<nat, uint32>, b: nat, w: uint32)
    requires b !in flat
    ensures Frames(flat[b := w], 0, b + 1) == Frames(flat, 0, b) + {PageOf(w)}
  {
    var f := flat[b := w];
    forall q | q in Frames(flat, 0, b) + {PageOf(w)}
      ensures q in Frames(f, 0, b + 1)
    {
      if q != PageOf(w) {
        var v :| v in flat && 0 <= v < b && PageOf(flat[v]) == q;
        assert v in f && f[v] == flat[v];
      } else {
        assert b in f && 0 <= b < b + 1;
      }
    }
  }

  /** walkpgdir without allocation, and the entry it leads to. */
  method ReadEntry(k: Kmem, d: nat, ghost sp: Space, v: nat) returns (w: uint32)
    requires k.Valid() && Owns(k, sp) && d == sp.dir && v < USER && v in sp.flat
    modifies k
    ensures k.Valid() && k.mem == old(k.mem) && k.free == old(k.free) && w == sp.flat[v]
  {
    hide Chained, NoRepeats, InRange, Set, SpaceOK, TablePages;
    FrameHere(k.mem, sp, v);
    var t;
    ghost var r;
    t, r := Walkpgdir(k, d, sp, v, false);
    w := k.mem[t.value][v % PGWORDS];
  }

  /** The child so far: pages below v are copied, and everything it has came from s. */
  ghost predicate Copying(k: Kmem, sp: Space, m0: Memory, r: Space, v: nat, s: set<nat>, kd: nat, bare: map<nat, nat>,
                          before: nat)
    reads k
  {
    && Spent(bare, r.tabs, before, |k.free|, 0, v, v)
    && k.Valid() && Owns(k, r) && Owns(k, sp) && sp.role.Keys !! s && Outside(m0, k.mem, s)
    && Spare(k, r) + Frames(r.flat, 0, v) == s && KernelMapped(kd, r.flat) && Copied(m0, sp.flat, k.mem, r.flat, v)
  }

  /** One round of copyuvm; on failure the child is freed. */
  method CopyPage(k: Kmem, c: nat, ghost r: Space, v: nat, n: nat, flags: nat, ghost sp: Space, ghost s: set<nat>,
                  ghost kd: nat, ghost m0: Memory, ghost bare: map<nat, nat>, ghost before: nat,
                  ghost total: nat) returns (done: bool, ghost r': Space)
    requires Copying(k, sp, m0, r, v, s, kd, bare, before) && c == r.dir && v in sp.flat && v !in r.flat
    requires v < total <= USER
    requires n == PageOf(sp.flat[v]) && flags == Flags(sp.flat[v]) && n in sp.role && n < |k.mem|
    modifies k
    ensures done ==> Copying(k, sp, m0, r', v + 1, s, kd, bare, before) && r'.dir == c
    ensures !done ==> before < Need(bare, 0, total)
    ensures !done ==> k.Valid() && Owns(k, sp) && Outside(m0, k.mem, s) && k.Free() == s
  {
    hide Chained, NoRepeats, InRange, Set, SpaceOK, TablePages, KernelMapped, Copied, Frames, Pte, Absent, Spent;
    ghost var m, spare, between := k.mem, Spare(k, r), |k.free|;
    ApartFromSpare(k, r, 0, v);
    CopiedFrames(k, r, m0, sp.flat, v);
    RolesAre(m, r);
    FrameHere(m, sp, v);
    var page;
    page, done, r' := AddPage(k, c, r, v, k.mem[n], flags);
    assert Outside(m, k.mem, s);
    if done {
      CopyDone(m0, sp.flat, m, k.mem, r.flat, v, page.value, spare, kd);
      SpentStep(bare, r.tabs, r'.tabs, before, between, |k.free|, 0, v, v, 1);
    } else {
      SpentStuck(bare, r.tabs, before, between, 0, v, v, 1, total);
      RolesAre(k.mem, r');
      DropChild(k, c, r', page);
    }
    OutsideTwice(m0, m, k.mem, s);
    Bystander(k, m, sp, s);
  }

  /** The failure path of copyuvm. */
  method DropChild(k: Kmem, c: nat, ghost r: Space, page: Option<nat>)
    requires k.Valid() && Owns(k, r) && c == r.dir && (page.Some? ==> Stranger(k, r, page.value))
    modifies k
    ensures k.Valid() && Outside(old(k.mem), k.mem, k.Free())
    ensures k.Free() == old(k.Free()) + r.role.Keys + (if page.Some? then {page.value} else {})
  {
    hide Chained, NoRepeats, InRange, Set, SpaceOK;
    var ok;
    if page.Some? {
      ok := GiveBack(k, r, page.value);
    }
    ok := Freevm(k, c, r);
  }

  lemma {:induction false} CopyDone(m0: Memory, flat: map<nat, uint32>, m: Memory, mem: Memory, flat': map<nat,
                                    uint32>, v: nat,
                                    n: nat, s: set<nat>, kd: nat)
    requires Copied(m0, flat, m, flat', v) && Outside(m, mem, s) && Frames(flat', 0, v) !! s && KernelMapped(kd, flat')
    requires v in flat && Present(flat[v]) && PageOf(flat[v]) < |m0| && n < |mem| && n < VPAGES && v < USER
    requires v !in flat'
    requires mem[n] == m0[PageOf(flat[v])]
    ensures var f := flat'[v := Pte(n, Flags(flat[v]))];
            Copied(m0, flat, mem, f, v + 1) && KernelMapped(kd, f) && Frames(f, 0, v + 1) == Frames(flat', 0, v) + {n}
  {
    hide Copied, Frames;
    CopiedStep(m0, flat, m, mem, flat', v, n, s);
    FramesAdd(flat', v, Pte(n, Flags(flat[v])));
  }

  /** The free pages a child of p pages needs: a bare space, the copies, and a table per 1024 of them. */
  function CopyNeed(p: nat): (n: nat) {
    KERNEL_PAGES + p + (p + PGWORDS - 1) / PGWORDS
  }

  /** No user table is there yet. */
  lemma {:induction false} BareNeed(tabs: map<nat, nat>, p: nat)
    requires p <= USER && forall t | t in tabs :: t >= 512
    ensures Need(tabs, 0, p) == p + (p + PGWORDS - 1) / PGWORDS
  {
    hide Interval;
    var n := (p + PGWORDS - 1) / PGWORDS;
    forall t: nat
      ensures t in Absent(tabs, 0, p) <==> t in Interval(0, n)
    {
      TablesIn(0, p, t);
    }
    assert Absent(tabs, 0, p) == Interval(0, n);
  }

  /** A child with copies of the parent's pages below sz; or None, with every page back, exactly when
      fewer pages are free than CopyNeed says. */
  method Copyuvm(k: Kmem, d: nat, ghost sp: Space, sz: nat, kd: nat) returns (c: Option<nat>, ghost r: Space)
    requires k.Valid() && Owns(k, sp) && d == sp.dir && KernelData(kd) && sz <= KERNBASE
    requires forall v | 0 <= v < RoundUp(sz) :: v in sp.flat
    modifies k
    ensures k.Valid() && Owns(k, sp) && Outside(old(k.mem), k.mem, old(k.Free()))
    ensures c.None? ==> k.Free() == old(k.Free())
    ensures c.None? <==> |old(k.free)| < CopyNeed(RoundUp(sz))
    ensures c.Some? ==> Owns(k, r) && r.dir == c.value && k.Free() + r.role.Keys == old(k.Free())
    ensures c.Some? ==> KernelMapped(kd, r.flat) && Copied(old(k.mem), sp.flat, k.mem, r.flat, RoundUp(sz))
  {
    hide Chained, NoRepeats, InRange, Set, SpaceOK, TablePages, KernelMapped, Copied, Outside, Need, RoundUp, Copying;
    ghost var s := k.Free();
    c, r := Setupkvm(k, kd);
    Bystander(k, old(k.mem), sp, s);
    if c.None? {
      return;
    }
    ghost var bare, before, total := r.tabs, |k.free|, RoundUp(sz);
    CopyStarts(k, sp, old(k.mem), r, s, kd);
    RoundUpLeast(0, 0, sz);
    BareNeed(bare, total);
    var i := 0;
    while i * PGSIZE < sz
      invariant Copying(k, sp, old(k.mem), r, i, s, kd, bare, before) && r.dir == c.value && 0 <= i <= total
      decreases sz - i
    {
      RoundUpLeast(i, 0, sz);
      var done;
      done, r := CopyNext(k, d, sp, c.value, r, i, s, kd, old(k.mem), bare, before, total);
      if !done {
        return None, r;
      }
      i := i + 1;
    }
    RoundUpLeast(i, 0, sz);
    CopyEnds(k, sp, old(k.mem), r, total, s, kd, bare, before);
  }

  lemma {:induction false} CopyStarts(k: Kmem, sp: Space, m0: Memory, r: Space, s: set<nat>, kd: nat)
    requires k.Valid() && Owns(k, r) && Owns(k, sp) && sp.role.Keys !! s && Outside(m0, k.mem, s)
    requires Spare(k, r) == s && KernelMapped(kd, r.flat) && forall v | v in r.flat :: v >= USER
    ensures Copying(k, sp, m0, r, 0, s, kd, r.tabs, |k.free|)
  {
    hide Chained, NoRepeats, InRange, Set, SpaceOK, TablePages, KernelMapped, Copied, Outside, Spent, Frames;
    CopiedNone(m0, sp.flat, k.mem, r.flat);
    SpentNone(r.tabs, |k.free|, 0);
  }

  lemma {:induction false} CopyEnds(k: Kmem, sp: Space, m0: Memory, r: Space, total: nat, s: set<nat>, kd: nat,
                                    bare: map<nat, nat>, before: nat)
    requires Copying(k, sp, m0, r, total, s, kd, bare, before) && total <= USER
    ensures k.Valid() && Owns(k, r) && Owns(k, sp) && Outside(m0, k.mem, s) && k.Free() + r.role.Keys == s
    ensures KernelMapped(kd, r.flat) && Copied(m0, sp.flat, k.mem, r.flat, total) && before >= Need(bare, 0, total)
  {
    hide Chained, NoRepeats, InRange, Set, SpaceOK, TablePages, KernelMapped, Copied, Outside, Spent, Frames, Need;
    SpentEnough(bare, r.tabs, before, |k.free|, 0, total);
    CopiedFrames(k, r, m0, sp.flat, total);
  }

  /** One round of copyuvm: find the page in the parent, and copy it. */
  method CopyNext(k: Kmem, d: nat, ghost sp: Space, c: nat, ghost r: Space, v: nat, ghost s: set<nat>, ghost kd: nat,
                  ghost m0: Memory, ghost bare: map<nat, nat>, ghost before: nat, ghost total: nat)
      returns (done: bool, ghost r': Space)
    requires Copying(k, sp, m0, r, v, s, kd, bare, before) && d == sp.dir && c == r.dir && v < total <= USER
    requires v in sp.flat
    modifies k
    ensures done ==> Copying(k, sp, m0, r', v + 1, s, kd, bare, before) && r'.dir == c
    ensures !done ==> before < Need(bare, 0, total)
    ensures !done ==> k.Valid() && Owns(k, sp) && Outside(m0, k.mem, s) && k.Free() == s
  {
    hide Chained, NoRepeats, InRange, Set, SpaceOK, TablePages, KernelMapped, Copied, Outside, Spent, Frames, Need;
    FrameHere(k.mem, sp, v);
    NotYet(m0, sp.flat, k.mem, r.flat, v);
    var pte := ReadEntry(k, d, sp, v);
    done, r' := CopyPage(k, c, r, v, PageOf(pte), Flags(pte), sp, s, kd, m0, bare, before, total);
  }

  lemma {:induction false} NotYet(mem: Memory, flat: map<nat, uint32>, mem': Memory, flat': map<nat, uint32>, v: nat)
    requires Copied(mem, flat, mem', flat', v) && v < USER
    ensures v !in flat'
  {
  }

  lemma {:induction false} CopiedNone(mem: Memory, flat: map<nat, uint32>, mem': Memory, flat': map<nat, uint32>)
    requires forall v | v in flat' :: v >= USER
    ensures Copied(mem, flat, mem', flat', 0) && Frames(flat', 0, 0) == {}
  {
  }

  lemma {:induction false} CopiedFrames(k: Kmem, r: Space, mem: Memory, flat: map<nat, uint32>, b: nat)
    requires Owns(k, r) && Copied(mem, flat, k.mem, r.flat, b) && b <= USER
    ensures k.Free() + r.role.Keys == Spare(k, r) + Frames(r.flat, 0, b)
  {
    RolesAre(k.mem, r);
  }
}
