/** vm.c: walking, filling, emptying and copying page tables. */
module Vm {
  import opened Bytes
  import opened Options
  import opened Sets
  import opened PageTables
  import opened Kalloc

  /** The space is in memory, and its pages are kalloc's but not free. */
  ghost predicate Owns(k: Kmem, sp: Space)
    reads k
  {
    SpaceOK(k.mem, sp) && forall n | n in sp.role :: k.lo <= n < k.hi && n !in k.Free()
  }

  /** The pages with the tables in them. */
  ghost function TablePages(sp: Space): (s: set<nat>) {
    set n | n in sp.role && !sp.role[n].Frame?
  }

  /** The pages that are free or hold the tables of the space. */
  ghost function Spare(k: Kmem, sp: Space): (s: set<nat>)
    reads k
  {
    k.Free() + TablePages(sp)
  }

  /** Nothing outside s changed. */
  ghost predicate Outside(mem: Memory, mem': Memory, s: set<nat>) {
    |mem'| == |mem| && forall n | 0 <= n < |mem| && n !in s :: mem'[n] == mem[n]
  }

  lemma {:induction false} OutsideNone(mem: Memory, s: set<nat>)
    ensures Outside(mem, mem, s)
  {
  }

  lemma {:induction false} OutsideTwice(a: Memory, b: Memory, c: Memory, s: set<nat>)
    requires Outside(a, b, s) && Outside(b, c, s)
    ensures Outside(a, c, s)
  {
  }

  // ---------- what a range costs ----------

  /** The directory entries that j virtual pages from first on need. */
  ghost function Tables(first: nat, j: nat): (s: set<nat>) {
    set u | first <= u < first + j :: u / PGWORDS
  }

  /** Those of them that have no table yet. */
  ghost function Absent(tabs: map<nat, nat>, first: nat, j: nat): (s: set<nat>) {
    Tables(first, j) - tabs.Keys
  }

  /** Of `before` free pages, `after` are left once the tables for j pages from first on exist and n
      pages were used otherwise. */
  ghost predicate Spent(tabs: map<nat, nat>, tabs': map<nat, nat>, before: nat, after: nat, first: nat, j: nat, n: nat) {
    tabs'.Keys == tabs.Keys + Tables(first, j) && before == after + |Absent(tabs, first, j)| + n
  }

  lemma {:induction false} SpentNone(tabs: map<nat, nat>, before: nat, first: nat)
    ensures Spent(tabs, tabs, before, before, first, 0, 0)
  {
    assert Tables(first, 0) == {};
    assert Absent(tabs, first, 0) == {};
  }

  lemma {:induction false} OneTable(tabs: map<nat, nat>, v: nat)
    ensures Tables(v, 1) == {v / PGWORDS}
    ensures Absent(tabs, v, 1) == if v / PGWORDS in tabs then {} else {v / PGWORDS}
  {
  }

  lemma {:induction false} SpentOne(tabs: map<nat, nat>, before: nat, v: nat)
    ensures |Absent(tabs, v, 1)| == if v / PGWORDS in tabs then 0 else 1
    ensures v / PGWORDS in tabs ==> Spent(tabs, tabs, before, before, v, 1, 0)
  {
    hide Tables, Absent;
    OneTable(tabs, v);
  }

  lemma {:induction false} SpentTable(tabs: map<nat, nat>, after: nat, v: nat, t: nat)
    requires v / PGWORDS !in tabs
    ensures Spent(tabs, tabs[v / PGWORDS := t], after + 1, after, v, 1, 0)
  {
    hide Tables, Absent;
    OneTable(tabs, v);
  }

  lemma {:induction false} TablesStep(first: nat, j: nat)
    ensures Tables(first, j + 1) == Tables(first, j) + Tables(first + j, 1)
  {
  }

  lemma {:induction false} AbsentStep(tabs: map<nat, nat>, tabs': map<nat, nat>, first: nat, j: nat)
    requires tabs'.Keys == tabs.Keys + Tables(first, j)
    ensures |Absent(tabs, first, j + 1)| == |Absent(tabs, first, j)| + |Absent(tabs', first + j, 1)|
  {
    hide Tables;
    TablesStep(first, j);
    DisjointParts(tabs.Keys, Tables(first, j), Tables(first + j, 1));
  }

  lemma {:induction false} DisjointParts(keys: set<nat>, a: set<nat>, b: set<nat>)
    ensures |a + b - keys| == |a - keys| + |b - (keys + a)|
  {
    assert a + b - keys == (a - keys) + (b - (keys + a));
  }

  lemma {:induction false} SpentStep(tabs: map<nat, nat>, mid: map<nat, nat>, tabs': map<nat, nat>, before: nat,
                                     between: nat, after: nat, first: nat, j: nat, n: nat, e: nat)
    requires Spent(tabs, mid, before, between, first, j, n) && Spent(mid, tabs', between, after, first + j, 1, e)
    ensures Spent(tabs, tabs', before, after, first, j + 1, n + e)
  {
    hide Tables, Absent;
    AbsentStep(tabs, mid, first, j);
    TablesStep(first, j);
  }

  lemma {:induction false} AbsentGrows(tabs: map<nat, nat>, first: nat, j: nat, total: nat)
    requires j <= total
    ensures |Absent(tabs, first, j)| <= |Absent(tabs, first, total)|
  {
    Smaller(Absent(tabs, first, j), Absent(tabs, first, total));
  }

  /** Too few pages for the next one are too few for the range. */
  lemma {:induction false} SpentStuck(tabs: map<nat, nat>, mid: map<nat, nat>, before: nat, between: nat, first: nat,
                                      j: nat, n: nat, e: nat, total: nat)
    requires Spent(tabs, mid, before, between, first, j, n) && between < e + |Absent(mid, first + j, 1)| && j < total
    ensures before < n + e + |Absent(tabs, first, total)|
  {
    hide Tables, Absent;
    AbsentStep(tabs, mid, first, j);
    AbsentGrows(tabs, first, j + 1, total);
  }

  // ---------- walking ----------

  /** The table page for virtual page v, created if asked for; None if there is none. */
  method Walkpgdir(k: Kmem, d: nat, ghost sp: Space, v: nat, alloc: bool) returns (t: Option<nat>, ghost r: Space)
    requires k.Valid() && Owns(k, sp) && d == sp.dir && v < VPAGES
    modifies k
    ensures k.Valid() && Owns(k, r) && Spare(k, r) == old(Spare(k, sp)) && r.dir == d && r.flat == sp.flat
    ensures Outside(old(k.mem), k.mem, old(Spare(k, sp)))
    ensures k.Free() <= old(k.Free()) && forall n | n in r.role :: n in sp.role || n in old(k.Free())
    ensures t.Some? ==> v / PGWORDS in r.tabs && r.tabs[v / PGWORDS] == t.value
    ensures v / PGWORDS in sp.tabs ==> t.Some? && r == sp && k.mem == old(k.mem)
    ensures v / PGWORDS !in sp.tabs && t.Some? ==> alloc && r == WithTable(sp, v / PGWORDS, t.value)
    ensures t.None? ==> r == sp && k.mem == old(k.mem) && (!alloc || old(k.Free()) == {})
    ensures !alloc ==> k.free == old(k.free)
    ensures alloc ==> (t.None? <==> |old(k.free)| < |Absent(sp.tabs, v, 1)|)
    ensures alloc && t.Some? ==> Spent(sp.tabs, r.tabs, |old(k.free)|, |k.free|, v, 1, 0)
  {
    hide SpaceOK, Chained, NoRepeats, InRange, Set, WithTable, TablePages, Absent, Spent;
    var i := v / PGWORDS;
    SpentOne(sp.tabs, |k.free|, v);
    r := sp;
    DirEntry(k.mem, sp, i);
    var pde := k.mem[d][i];
    if Present(pde) {
      return Some(PageOf(pde)), sp;
    }
    if !alloc {
      return None, sp;
    }
    t := k.Kalloc();
    if t.None? {
      return;
    }
    DirIsSpare(k.mem, sp);
    r := NewTable(k, d, sp, i, t.value);
    TableJoins(sp, i, t.value);
    SpentTable(sp.tabs, |k.free|, v, t.value);
  }

  lemma {:induction false} TableJoins(sp: Space, i: nat, t: nat)
    requires t !in sp.role
    ensures var r := WithTable(sp, i, t);
            && r.dir == sp.dir && r.flat == sp.flat && r.tabs == sp.tabs[i := t]
            && r.role.Keys == sp.role.Keys + {t} && TablePages(r) == TablePages(sp) + {t}
  {
    var r := WithTable(sp, i, t);
    forall n | n in sp.role
      ensures r.role[n] == sp.role[n]
    {
    }
  }

  lemma {:induction false} DirIsSpare(mem: Memory, sp: Space)
    requires SpaceOK(mem, sp)
    ensures sp.dir in TablePages(sp) && forall i | i in sp.tabs :: sp.tabs[i] in TablePages(sp)
  {
  }

  method NewTable(k: Kmem, d: nat, ghost sp: Space, i: nat, t: nat) returns (ghost r: Space)
    requires k.Valid() && Owns(k, sp) && d == sp.dir && i < PGWORDS && i !in sp.tabs
    requires k.lo <= t < k.hi && t !in k.Free() && t !in sp.role
    modifies k`mem
    ensures k.Valid() && r == WithTable(sp, i, t) && Owns(k, r) && Outside(old(k.mem), k.mem, {t, d})
  {
    hide Chained, NoRepeats, InRange, Set;
    ghost var m := k.mem;
    TableAdded(m, sp, i, t);
    DirEntry(m, sp, i);
    FreeInRange(k);
    k.mem := k.mem[t := Zeros()];
    k.mem := k.mem[d := k.mem[d][i := t * PGSIZE + 7]];
    r := WithTable(sp, i, t);
    assert k.mem == HangTable(m, d, i, t);
    StillChained(k, m);
  }

  /** The links of free pages are intact if the free pages are. */
  lemma {:induction false} StillChained(k: Kmem, m: Memory)
    requires 0 < k.lo <= k.hi <= USER && |m| == |k.mem| == k.hi && InRange(k.free, k.lo, k.hi) && NoRepeats(k.free)
    requires Chained(m, k.freelist, k.free) && forall n | n in k.Free() :: k.mem[n] == m[n]
    ensures k.Valid()
  {
    forall i | 0 <= i < |k.free|
      ensures k.mem[k.free[i]][0] == Link(k.free, i + 1)
    {
      assert k.free[i] in k.Free();
    }
  }

  // ---------- single entries ----------

  /** The entry for page n with permissions perm. */
  function Pte(n: nat, perm: nat): (w: uint32)
    requires n < VPAGES && perm < PGSIZE
    ensures Present(w) && PageOf(w) == n && Flags(w) == perm + (1 - perm % 2)
  {
    n * PGSIZE + (if perm % 2 == 0 then perm + 1 else perm)
  }

  method SetEntry(k: Kmem, ghost sp: Space, t: nat, v: nat, w: uint32) returns (ghost r: Space)
    requires k.Valid() && Owns(k, sp) && v < VPAGES && v / PGWORDS in sp.tabs && t == sp.tabs[v / PGWORDS]
    requires v !in sp.flat && Present(w)
    requires v < USER ==> k.lo <= PageOf(w) < k.hi && PageOf(w) !in k.Free() && PageOf(w) !in sp.role
    modifies k`mem
    ensures k.Valid() && r == WithEntry(sp, v, w) && Owns(k, r) && TablePages(r) == TablePages(sp)
    ensures Outside(old(k.mem), k.mem, {t}) && t in TablePages(sp)
  {
    hide Chained, NoRepeats, InRange, Set, SpaceOK;
    ghost var m := k.mem;
    EntryAdded(m, sp, v, w);
    DirEntry(m, sp, v / PGWORDS);
    FreeInRange(k);
    k.mem := k.mem[t := k.mem[t][v % PGWORDS := w]];
    r := WithEntry(sp, v, w);
    assert k.mem == Poke(m, sp, v, w);
    StillChained(k, m);
    FrameJoins(sp, v, w);
  }

  lemma {:induction false} FrameJoins(sp: Space, v: nat, w: uint32)
    requires v < USER ==> PageOf(w) !in sp.role
    ensures TablePages(WithEntry(sp, v, w)) == TablePages(sp)
  {
    var r := WithEntry(sp, v, w);
    forall n | n in sp.role
      ensures n in r.role && r.role[n] == sp.role[n]
    {
    }
  }

  method ClearEntry(k: Kmem, ghost sp: Space, t: nat, v: nat) returns (ghost r: Space)
    requires k.Valid() && SpaceOK(k.mem, sp) && v in sp.flat && v < VPAGES && v / PGWORDS in sp.tabs
    requires t == sp.tabs[v / PGWORDS]
    requires t !in k.Free()
    modifies k`mem
    ensures k.Valid() && r == WithoutEntry(sp, v) && SpaceOK(k.mem, r) && TablePages(r) == TablePages(sp)
    ensures Outside(old(k.mem), k.mem, {t}) && t in TablePages(sp)
  {
    hide Chained, NoRepeats, InRange, Set, SpaceOK;
    ghost var m := k.mem;
    EntryRemoved(m, sp, v);
    DirEntry(m, sp, v / PGWORDS);
    FreeInRange(k);
    k.mem := k.mem[t := k.mem[t][v % PGWORDS := 0]];
    r := WithoutEntry(sp, v);
    assert k.mem == Poke(m, sp, v, 0);
    StillChained(k, m);
    FrameLeaves(m, sp, v);
  }

  lemma {:induction false} FrameLeaves(mem: Memory, sp: Space, v: nat)
    requires SpaceOK(mem, sp) && v in sp.flat
    ensures TablePages(WithoutEntry(sp, v)) == TablePages(sp)
  {
  }

  // ---------- ranges ----------

  datatype MapResult = Mapped | NoMemory | Remap

  /** The flat map with j entries added from virtual page v and physical page n on. */
  function Plus(flat: map<nat, uint32>, v: nat, j: nat, n: nat, perm: nat): (r: map<nat, uint32>)
    requires n + j <= VPAGES && perm < PGSIZE
    ensures forall u :: u in r <==> u in flat || v <= u < v + j
    ensures forall u | u in r :: r[u] == if v <= u < v + j then Pte(n + (u - v), perm) else flat[u]
  {
    if j == 0 then flat else Plus(flat, v, j - 1, n, perm)[v + j - 1 := Pte(n + j - 1, perm)]
  }

  lemma {:induction false} PlusNone(flat: map<nat, uint32>, v: nat, n: nat, perm: nat)
    requires n <= VPAGES && perm < PGSIZE
    ensures Plus(flat, v, 0, n, perm) == flat
  {
  }

  lemma {:induction false} PlusStep(flat: map<nat, uint32>, v: nat, j: nat, n: nat, perm: nat)
    requires n + j + 1 <= VPAGES && perm < PGSIZE
    ensures Plus(flat, v, j + 1, n, perm) == Plus(flat, v, j, n, perm)[v + j := Pte(n + j, perm)]
    ensures v + j in Plus(flat, v, j, n, perm) <==> v + j in flat
  {
  }

  /** Page q is kalloc's, but neither free nor part of the space. */
  ghost predicate Stranger(k: Kmem, sp: Space, q: nat)
    reads k
  {
    k.lo <= q < k.hi && q !in k.Free() && q !in sp.role
  }

  /** The pages that are free or belong to the space. */
  ghost function Pool(k: Kmem, sp: Space): (s: set<nat>)
    reads k
  {
    k.Free() + sp.role.Keys
  }

  /** The j pages from n on that are to be mapped at user addresses from v on are not in the pool. */
  ghost predicate Strange(lo: nat, hi: nat, pool: set<nat>, v: nat, j: nat, n: nat) {
    forall q | n <= q < n + j && v + (q - n) < USER :: lo <= q < hi && q !in pool
  }

  lemma {:induction false} StrangeNext(lo: nat, hi: nat, pool: set<nat>, pool': set<nat>, v: nat, j: nat, n: nat)
    requires Strange(lo, hi, pool, v, j, n) && pool' <= pool + {n} && j > 0
    ensures Strange(lo, hi, pool', v + 1, j - 1, n + 1)
  {
  }

  /** The pages to be mapped at user addresses are new to the space. */
  ghost predicate Strangers(k: Kmem, sp: Space, v: nat, j: nat, n: nat)
    reads k
  {
    Strange(k.lo, k.hi, Pool(k, sp), v, j, n)
  }

  lemma {:induction false} FirstStranger(k: Kmem, sp: Space, v: nat, j: nat, n: nat)
    requires Strangers(k, sp, v, j, n) && j > 0
    ensures v < USER ==> Stranger(k, sp, n)
  {
    assert v + (n - n) < USER ==> n !in Pool(k, sp);
  }

  method MapPage(k: Kmem, d: nat, ghost sp: Space, v: nat, n: nat, perm: nat) returns (res: MapResult, ghost r: Space)
    requires k.Valid() && Owns(k, sp) && d == sp.dir && v < VPAGES && n < VPAGES && perm < PGSIZE
    requires v < USER ==> Stranger(k, sp, n)
    modifies k
    ensures k.Valid() && Owns(k, r) && Spare(k, r) == old(Spare(k, sp)) && r.dir == d
    ensures Outside(old(k.mem), k.mem, old(Spare(k, sp)))
    ensures Pool(k, r) <= old(Pool(k, sp)) + {n}
    ensures res.Mapped? ==> v !in sp.flat && r.flat == sp.flat[v := Pte(n, perm)]
    ensures !res.Mapped? ==> r.flat == sp.flat
    ensures res.NoMemory? ==> k.Free() == {} && v / PGWORDS !in sp.tabs
    ensures res.NoMemory? <==> |old(k.free)| < |Absent(sp.tabs, v, 1)|
    ensures res.Mapped? ==> Spent(sp.tabs, r.tabs, |old(k.free)|, |k.free|, v, 1, 0)
    ensures res.Remap? ==> v in sp.flat
  {
    hide Chained, NoRepeats, InRange, Set, SpaceOK, TablePages, WithTable, Absent, Spent;
    var t;
    t, r := Walkpgdir(k, d, sp, v, true);
    if t.None? {
      return NoMemory, r;
    }
    DirEntry(k.mem, r, v / PGWORDS);
    EntryHere(k.mem, r, v);
    if Present(k.mem[t.value][v % PGWORDS]) {
      return Remap, r;
    }
    r := SetEntry(k, r, t.value, v, Pte(n, perm));
    res := Mapped;
  }

  lemma {:induction false} EntryHere(mem: Memory, sp: Space, v: nat)
    requires SpaceOK(mem, sp) && v < VPAGES && v / PGWORDS in sp.tabs
    ensures sp.tabs[v / PGWORDS] < |mem| && mem[sp.tabs[v / PGWORDS]][v % PGWORDS] == Entry(sp, v)
    ensures Present(Entry(sp, v)) <==> v in sp.flat
  {
    assert TabEntryOK(mem, sp, v);
  }

  /** The loop of mappages: virtual pages first to last, to physical pages from n on. j were done. */
  method MapRange(k: Kmem, d: nat, ghost sp: Space, first: nat, last: nat, n: nat, perm: nat)
      returns (res: MapResult, ghost r: Space, ghost j: nat)
    requires k.Valid() && Owns(k, sp) && d == sp.dir && perm < PGSIZE
    requires first <= last < VPAGES && n + (last - first) < VPAGES && Strangers(k, sp, first, last - first + 1, n)
    modifies k
    ensures k.Valid() && Owns(k, r) && Spare(k, r) == old(Spare(k, sp)) && r.dir == d
    ensures Outside(old(k.mem), k.mem, old(Spare(k, sp)))
    ensures j <= last - first + 1 && r.flat == Plus(sp.flat, first, j, n, perm)
    ensures res.Mapped? ==> j == last - first + 1 && forall u | first <= u <= last :: u !in sp.flat
    ensures res.NoMemory? ==> j <= last - first && k.Free() == {}
    ensures res.NoMemory? ==> |old(k.free)| < |Absent(sp.tabs, first, last - first + 1)|
    ensures res.Mapped? ==> Spent(sp.tabs, r.tabs, |old(k.free)|, |k.free|, first, last - first + 1, 0)
    ensures res.Remap? ==> j <= last - first && first + j in sp.flat
  {
    hide Chained, NoRepeats, InRange, Set, SpaceOK, TablePages, Plus, Pte, Outside, Owns, Spare, Absent, Spent, Strange, Pool,
         Stranger;
    SpentNone(sp.tabs, |k.free|, first);
    var a, p := first, n;
    r, j := sp, 0;
    PlusNone(sp.flat, first, n, perm);
    OutsideNone(k.mem, Spare(k, sp));
    while true
      invariant k.Valid() && Owns(k, r) && Spare(k, r) == old(Spare(k, sp)) && r.dir == d
      invariant Outside(old(k.mem), k.mem, old(Spare(k, sp)))
      invariant 0 <= j && a == first + j <= last && p == n + j
      invariant r.flat == Plus(sp.flat, first, j, n, perm)
      invariant forall u | first <= u < first + j :: u !in sp.flat
      invariant Strangers(k, r, a, last - a + 1, p)
      invariant Spent(sp.tabs, r.tabs, |old(k.free)|, |k.free|, first, j, 0)
      decreases last - a
    {
      FirstStranger(k, r, a, last - a + 1, p);
      PlusStep(sp.flat, first, j, n, perm);
      ghost var m, mid, between, pool := k.mem, r.tabs, |k.free|, Pool(k, r);
      var more;
      more, r := MapPage(k, d, r, a, p, perm);
      OutsideTwice(old(k.mem), m, k.mem, old(Spare(k, sp)));
      if !more.Mapped? {
        if more.NoMemory? {
          SpentStuck(sp.tabs, mid, |old(k.free)|, between, first, j, 0, 0, last - first + 1);
        }
        return more, r, j;
      }
      SpentStep(sp.tabs, mid, r.tabs, |old(k.free)|, between, |k.free|, first, j, 0, 0);
      j := j + 1;
      if a == last {
        return Mapped, r, j;
      }
      StrangeNext(k.lo, k.hi, pool, Pool(k, r), a, last - a + 1, p);
      a, p := a + 1, p + 1;
    }
  }

  /** Maps the pages of [va, va + size) to consecutive physical pages from pa on. */
  method Mappages(k: Kmem, d: nat, ghost sp: Space, va: uint32, size: nat, pa: uint32, perm: nat)
      returns (res: MapResult, ghost r: Space, ghost j: nat)
    requires k.Valid() && Owns(k, sp) && d == sp.dir && perm < PGSIZE
    requires size > 0 && va + size <= 0x1_0000_0000 && pa % PGSIZE == 0
    requires pa / PGSIZE + Count(va, size) <= VPAGES && Strangers(k, sp, va / PGSIZE, Count(va, size), pa / PGSIZE)
    modifies k
    ensures k.Valid() && Owns(k, r) && Spare(k, r) == old(Spare(k, sp)) && r.dir == d
    ensures Outside(old(k.mem), k.mem, old(Spare(k, sp)))
    ensures j <= Count(va, size) && r.flat == Plus(sp.flat, va / PGSIZE, j, pa / PGSIZE, perm)
    ensures res.Mapped? ==> j == Count(va, size) && forall u | va / PGSIZE <= u < va / PGSIZE + j :: u !in sp.flat
    ensures res.NoMemory? ==> j < Count(va, size) && k.Free() == {}
    ensures res.NoMemory? ==> |old(k.free)| < |Absent(sp.tabs, va / PGSIZE, Count(va, size))|
    ensures res.Mapped? ==> Spent(sp.tabs, r.tabs, |old(k.free)|, |k.free|, va / PGSIZE, Count(va, size), 0)
    ensures res.Remap? ==> j < Count(va, size) && va / PGSIZE + j in sp.flat
  {
    hide Chained, NoRepeats, InRange, Set, SpaceOK, TablePages, Plus, Pte, Outside, Owns, Spare, Strangers, Absent,
         Spent;
    res, r, j := MapRange(k, d, sp, va / PGSIZE, (va + size - 1) / PGSIZE, pa / PGSIZE, perm);
  }

  /** The number of pages that [va, va + size) touches. */
  function Count(va: nat, size: nat): (n: nat)
    requires size > 0
  {
    (va + size - 1) / PGSIZE - va / PGSIZE + 1
  }

  // ---------- emptying ----------

  ghost function Minus(flat: map<nat, uint32>, a: nat, b: nat): (r: map<nat, uint32>) {
    map v | v in flat && !(a <= v < b) :: flat[v]
  }

  /** The pages mapped from virtual page a up to b. */
  ghost function Frames(flat: map<nat, uint32>, a: nat, b: nat): (s: set<nat>) {
    set v | v in flat && a <= v < b :: PageOf(flat[v])
  }

  lemma {:induction false} MinusStep(flat: map<nat, uint32>, a: nat, b: nat)
    requires a <= b && b in flat
    ensures Minus(flat, a, b + 1) == Minus(flat, a, b) - {b} && b in Minus(flat, a, b)
    ensures Frames(flat, a, b + 1) == Frames(flat, a, b) + {PageOf(flat[b])}
  {
  }

  lemma {:induction false} MinusGap(flat: map<nat, uint32>, a: nat, b: nat, c: nat)
    requires a <= b <= c && forall v | v in flat :: !(b <= v < c)
    ensures Minus(flat, a, c) == Minus(flat, a, b) && Frames(flat, a, c) == Frames(flat, a, b)
  {
  }

  lemma {:induction false} MinusNone(flat: map<nat, uint32>, a: nat)
    ensures Minus(flat, a, a) == flat && Frames(flat, a, a) == {}
  {
  }

  /** One user page goes back to kalloc. */
  method DropPage(k: Kmem, ghost sp: Space, t: nat, v: nat) returns (ghost r: Space, ok: bool)
    requires k.Valid() && Owns(k, sp) && v < USER && v in sp.flat && v / PGWORDS in sp.tabs && t == sp.tabs[v / PGWORDS]
    modifies k
    ensures k.Valid() && Owns(k, r) && ok && r.dir == sp.dir && r.tabs == sp.tabs && r.flat == sp.flat - {v}
    ensures Spare(k, r) == old(Spare(k, sp)) + {PageOf(sp.flat[v])} && PageOf(sp.flat[v]) in sp.role
    ensures r.role.Keys == sp.role.Keys - {PageOf(sp.flat[v])} && TablePages(r) == TablePages(sp)
    ensures k.Free() == old(k.Free()) + {PageOf(sp.flat[v])}
    ensures Outside(old(k.mem), k.mem, old(Spare(k, sp)) + {PageOf(sp.flat[v])})
  {
    hide Chained, NoRepeats, InRange, Set, SpaceOK, TablePages;
    FrameHere(k.mem, sp, v);
    ghost var m := k.mem;
    var n := PageOf(k.mem[t][v % PGWORDS]);
    ok := k.Kfree(n);
    FrameIsNotTable(m, sp, v);
    Elsewhere(m, k.mem, sp);
    r := ClearEntry(k, sp, t, v);
  }

  lemma {:induction false} FrameHere(mem: Memory, sp: Space, v: nat)
    requires SpaceOK(mem, sp) && v in sp.flat && v < USER
    ensures v / PGWORDS in sp.tabs && sp.tabs[v / PGWORDS] < |mem| && sp.tabs[v / PGWORDS] in sp.role
    ensures mem[sp.tabs[v / PGWORDS]][v % PGWORDS] == sp.flat[v]
    ensures Present(sp.flat[v]) && PageOf(sp.flat[v]) in sp.role && PageOf(sp.flat[v]) != sp.tabs[v / PGWORDS]
  {
    assert TabEntryOK(mem, sp, v);
  }

  lemma {:induction false} FrameIsNotTable(mem: Memory, sp: Space, v: nat)
    requires SpaceOK(mem, sp) && v in sp.flat && v < USER
    ensures !Holds(sp, PageOf(sp.flat[v])) && PageOf(sp.flat[v]) !in TablePages(sp)
  {
  }

  /** Shrinks the user part from oldsz to newsz bytes. A directory entry that is absent lets the loop
      skip the pages of its whole table. */
  method Deallocuvm(k: Kmem, d: nat, ghost sp: Space, oldsz: nat, newsz: nat) returns (sz: nat, ok: bool,
                    ghost r: Space)
    requires k.Valid() && Owns(k, sp) && d == sp.dir && oldsz <= KERNBASE
    modifies k
    ensures k.Valid() && Owns(k, r) && r.dir == d && r.tabs == sp.tabs && ok && TablePages(r) == TablePages(sp)
    ensures newsz >= oldsz ==> sz == oldsz && r == sp && k.mem == old(k.mem) && k.Free() == old(k.Free())
    ensures newsz < oldsz ==> sz == newsz && r.flat == Minus(sp.flat, RoundUp(newsz), RoundUp(oldsz))
    ensures newsz < oldsz ==> k.Free() == old(k.Free()) + Frames(sp.flat, RoundUp(newsz), RoundUp(oldsz))
    ensures newsz < oldsz ==> r.role.Keys == sp.role.Keys - Frames(sp.flat, RoundUp(newsz), RoundUp(oldsz))
    ensures Outside(old(k.mem), k.mem, Spare(k, r))
  {
    hide Chained, NoRepeats, InRange, Set, SpaceOK, TablePages, Minus, Frames;
    r, ok := sp, true;
    if newsz >= oldsz {
      return oldsz, true, sp;
    }
    ghost var from, to := RoundUp(newsz), RoundUp(oldsz);
    var a := RoundUp(newsz);
    MinusNone(sp.flat, from);
    while a * PGSIZE < oldsz
      invariant k.Valid() && Owns(k, r) && r.dir == d && r.tabs == sp.tabs && from <= a && ok
      invariant r.flat == Minus(sp.flat, from, Min(a, to)) && TablePages(r) == TablePages(sp)
      invariant k.Free() == old(k.Free()) + Frames(sp.flat, from, Min(a, to))
      invariant r.role.Keys == sp.role.Keys - Frames(sp.flat, from, Min(a, to))
      invariant Outside(old(k.mem), k.mem, Spare(k, r))
      decreases oldsz - a
    {
      var t;
      t, r := Walkpgdir(k, d, r, a, false);
      if t.None? {
        var next := (a / PGWORDS + 1) * PGWORDS;
        NoTable(old(k.mem), sp, a);
        MinusGap(sp.flat, from, a, Min(next, to));
        a := next - 1;
      } else {
        EntryHere(k.mem, r, a);
        if Present(k.mem[t.value][a % PGWORDS]) {
          StillIn(sp.flat, from, a);
          MinusStep(sp.flat, from, a);
          r, ok := DropPage(k, r, t.value, a);
        } else {
          StillIn(sp.flat, from, a);
          MinusGap(sp.flat, from, a, a + 1);
        }
      }
      a := a + 1;
    }
    sz := newsz;
  }

  function Min(a: nat, b: nat): (m: nat) {
    if a < b then a else b
  }

  lemma {:induction false} StillIn(flat: map<nat, uint32>, a: nat, b: nat)
    requires a <= b
    ensures b in Minus(flat, a, b) <==> b in flat
    ensures b in flat ==> Minus(flat, a, b)[b] == flat[b]
    ensures b !in flat ==> forall v | v in flat :: !(b <= v < b + 1)
  {
  }

  /** No page is mapped through an absent directory entry. */
  lemma {:induction false} NoTable(mem: Memory, sp: Space, a: nat)
    requires SpaceOK(mem, sp) && a < VPAGES && a / PGWORDS !in sp.tabs
    ensures forall v | v in sp.flat :: !(a <= v < (a / PGWORDS + 1) * PGWORDS)
  {
    forall v | v in sp.flat
      ensures !(a <= v < (a / PGWORDS + 1) * PGWORDS)
    {
      assert TabEntryOK(mem, sp, v);
    }
  }
}
