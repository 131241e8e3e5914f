/** All address spaces of the machine together: whatever calls of vm.c and kalloc.c are made, every
    page of physical memory stays free, or the property of one address space, or of one kernel stack
    or pipe, and what is done to one address space changes no page of another. */
module VmMachine {
  import opened Bytes
  import opened Options
  import opened PageTables
  import opened Kalloc
  import opened Vm
  import opened VmUser
  import opened VmSpaces

  // ---------- who has which page ----------

  ghost predicate Good(lo: nat, hi: nat, mem: Memory, free: set<nat>, sp: Space) {
    SpaceOK(mem, sp) && forall n | n in sp.role :: lo <= n < hi && n !in free
  }

  ghost predicate Claimed(spaces: map<nat, Space>, n: nat) {
    exists d | d in spaces :: n in spaces[d].role
  }

  /** Every page from lo up to hi is free, held or part of a space, and only one of these; and every
      space is sound in memory. Spaces are known by their directories. */
  ghost predicate World(lo: nat, hi: nat, mem: Memory, free: set<nat>, spaces: map<nat, Space>, held: set<nat>) {
    && (forall d | d in spaces :: spaces[d].dir == d && Good(lo, hi, mem, free, spaces[d]))
    && (forall d, e | d in spaces && e in spaces && d != e :: spaces[d].role.Keys !! spaces[e].role.Keys)
    && (forall d | d in spaces :: spaces[d].role.Keys !! held)
    && (forall n | n in held :: lo <= n < hi && n !in free)
    && (forall n | lo <= n < hi :: n in free || n in held || Claimed(spaces, n))
  }

  ghost function PagesOf(spaces: map<nat, Space>, d: nat): (s: set<nat>) {
    if d in spaces then spaces[d].role.Keys else {}
  }

  ghost function PagesNow(now: Option<Space>): (s: set<nat>) {
    if now.Some? then now.value.role.Keys else {}
  }

  ghost function Update(spaces: map<nat, Space>, d: nat, now: Option<Space>): (r: map<nat, Space>) {
    if now.Some? then spaces[d := now.value] else spaces - {d}
  }

  /** A change confined to the free pages and those of space d. */
  ghost predicate Confined(lo: nat, hi: nat, m0: Memory, f0: set<nat>, spaces: map<nat, Space>, mem: Memory, f: set<nat>,
                           d: nat, now: Option<Space>)
  {
    && Outside(m0, mem, f0 + PagesOf(spaces, d)) && f + PagesNow(now) == f0 + PagesOf(spaces, d) && f !! PagesNow(now)
    && (now.Some? ==> now.value.dir == d && Good(lo, hi, mem, f, now.value))
  }

  lemma {:induction false} BystanderGood(lo: nat, hi: nat, m0: Memory, f0: set<nat>, spaces: map<nat, Space>, held: set<nat>,
                                         mem: Memory, f: set<nat>, d: nat, now: Option<Space>, e: nat)
    requires World(lo, hi, m0, f0, spaces, held) && Confined(lo, hi, m0, f0, spaces, mem, f, d, now)
    requires e in spaces && e != d
    ensures Good(lo, hi, mem, f, spaces[e]) && spaces[e].role.Keys !! PagesNow(now)
    ensures Intact(m0, mem, spaces[e])
  {
    hide SpaceOK, Claimed;
    var pool := f0 + PagesOf(spaces, d);
    assert spaces[e].role.Keys !! pool;
    RoleInMemory(m0, spaces[e]);
    Elsewhere(m0, mem, spaces[e]);
    forall n | n in spaces[e].role
      ensures n !in f && n !in PagesNow(now)
    {
      assert n !in pool;
      assert n in f + PagesNow(now) <==> n in pool;
    }
  }

  lemma {:induction false} HeldStays(lo: nat, hi: nat, m0: Memory, f0: set<nat>, spaces: map<nat, Space>, held: set<nat>,
                                     mem: Memory, f: set<nat>, d: nat, now: Option<Space>, n: nat)
    requires World(lo, hi, m0, f0, spaces, held) && Confined(lo, hi, m0, f0, spaces, mem, f, d, now) && n in held
    ensures n !in f && n !in PagesNow(now) && (n < |m0| ==> n < |mem| && mem[n] == m0[n])
  {
    hide SpaceOK, Claimed, Good;
    assert n !in f0 + PagesOf(spaces, d);
    assert n in f + PagesNow(now) <==> n in f0 + PagesOf(spaces, d);
  }

  lemma {:induction false} StillClaimed(lo: nat, hi: nat, m0: Memory, f0: set<nat>, spaces: map<nat, Space>, held: set<nat>,
                                        mem: Memory, f: set<nat>, d: nat, now: Option<Space>, n: nat)
    requires World(lo, hi, m0, f0, spaces, held) && Confined(lo, hi, m0, f0, spaces, mem, f, d, now) && lo <= n < hi
    ensures n in f || n in held || Claimed(Update(spaces, d, now), n)
  {
    hide SpaceOK, Good;
    var spaces' := Update(spaces, d, now);
    assert n in f + PagesNow(now) <==> n in f0 + PagesOf(spaces, d);
    if n in PagesNow(now) {
      assert n in spaces'[d].role;
    } else if n !in f && n !in held {
      assert Claimed(spaces, n);
      var e :| e in spaces && n in spaces[e].role;
      assert e in spaces' && n in spaces'[e].role;
    }
  }

  /** Such a change keeps the whole in order. */
  lemma {:induction false} WorldKept(lo: nat, hi: nat, m0: Memory, f0: set<nat>, spaces: map<nat, Space>, held: set<nat>,
                                     mem: Memory, f: set<nat>, d: nat, now: Option<Space>)
    requires World(lo, hi, m0, f0, spaces, held) && Confined(lo, hi, m0, f0, spaces, mem, f, d, now)
    ensures World(lo, hi, mem, f, Update(spaces, d, now), held)
    ensures Untouched(m0, mem, spaces, d, held)
  {
    hide SpaceOK, Good, Claimed, Confined, Intact;
    var spaces' := Update(spaces, d, now);
    ConfinedNow(lo, hi, m0, f0, spaces, mem, f, d, now);
    forall e | e in spaces && e != d
      ensures Good(lo, hi, mem, f, spaces[e]) && spaces[e].role.Keys !! PagesNow(now)
      ensures Intact(m0, mem, spaces[e])
    {
      BystanderGood(lo, hi, m0, f0, spaces, held, mem, f, d, now, e);
    }
    forall n | n in held
      ensures n !in f && n !in PagesNow(now) && (n < |m0| ==> n < |mem| && mem[n] == m0[n])
    {
      HeldStays(lo, hi, m0, f0, spaces, held, mem, f, d, now, n);
    }
    forall n | lo <= n < hi
      ensures n in f || n in held || Claimed(spaces', n)
    {
      StillClaimed(lo, hi, m0, f0, spaces, held, mem, f, d, now, n);
    }
  }

  lemma {:induction false} ConfinedNow(lo: nat, hi: nat, m0: Memory, f0: set<nat>, spaces: map<nat, Space>, mem: Memory,
                                       f: set<nat>, d: nat, now: Option<Space>)
    requires Confined(lo, hi, m0, f0, spaces, mem, f, d, now)
    ensures now.Some? ==> now.value.dir == d && Good(lo, hi, mem, f, now.value)
  {
  }

  ghost predicate Intact(m0: Memory, mem: Memory, sp: Space) {
    forall n | n in sp.role :: n < |m0| == |mem| && mem[n] == m0[n]
  }

  /** Not a word of any other space, nor of a held page, has changed. */
  ghost predicate Untouched(m0: Memory, mem: Memory, spaces: map<nat, Space>, d: nat, held: set<nat>) {
    && (forall e | e in spaces && e != d :: Intact(m0, mem, spaces[e]))
    && (forall n | n in held && n < |m0| :: n < |mem| && mem[n] == m0[n])
  }

  // ---------- the user half and the size of a process ----------

  /** No user page is mapped at or above the size. */
  ghost predicate Below(flat: map<nat, uint32>, sz: nat) {
    forall v | v in flat && v < USER :: v < RoundUp(sz)
  }

  /** Every page below the size is mapped. */
  ghost predicate Full(flat: map<nat, uint32>, sz: nat) {
    forall v | 0 <= v < RoundUp(sz) :: v in flat
  }

  ghost predicate ProcessOK(kd: nat, flat: map<nat, uint32>, sz: nat) {
    sz <= KERNBASE && KernelMapped(kd, flat) && Below(flat, sz)
  }

  lemma {:induction false} GrownProcess(kd: nat, flat: map<nat, uint32>, flat': map<nat, uint32>, sz: nat, sz': nat)
    requires ProcessOK(kd, flat, sz) && sz <= sz' < KERNBASE && Grown(flat, flat', RoundUp(sz), RoundUp(sz'))
    ensures ProcessOK(kd, flat', sz') && (Full(flat', sz') <==> Full(flat, sz))
  {
    hide KernelEntry;
    assert RoundUp(sz) <= RoundUp(sz') <= USER;
    forall v: nat | KernelPage(v)
      ensures v in flat' && flat'[v] == flat[v]
    {
      assert v in flat;
    }
  }

  lemma {:induction false} ShrunkProcess(kd: nat, flat: map<nat, uint32>, sz: nat, sz': nat)
    requires ProcessOK(kd, flat, sz) && sz' <= sz
    ensures ProcessOK(kd, Minus(flat, RoundUp(sz'), RoundUp(sz)), sz')
    ensures Full(flat, sz) ==> Full(Minus(flat, RoundUp(sz'), RoundUp(sz)), sz')
  {
    hide KernelEntry;
    assert RoundUp(sz') <= RoundUp(sz) <= USER;
    var flat' := Minus(flat, RoundUp(sz'), RoundUp(sz));
    forall v: nat | KernelPage(v)
      ensures v in flat'
    {
      assert v in flat;
    }
  }

  // ---------- the machine ----------

  class Machine {
    const k: Kmem
    const kd: nat
    /** Page directory and size of every process. */
    var sizes: map<nat, nat>
    ghost var spaces: map<nat, Space>
    /** Pages that kalloc gave out as kernel stacks and pipes. */
    ghost var held: set<nat>

    ghost predicate Valid()
      reads this, k
    {
      && KernelData(kd) && k.Valid() && World(k.lo, k.hi, k.mem, k.Free(), spaces, held)
      && sizes.Keys == spaces.Keys && forall d | d in spaces :: ProcessOK(kd, spaces[d].flat, sizes[d])
    }

    /** The map and the tables of a process, and its size. */
    ghost function Flat(d: nat): (flat: map<nat, uint32>)
      reads this
    {
      if d in spaces then spaces[d].flat else map[]
    }

    ghost function Tabs(d: nat): (tabs: map<nat, nat>)
      reads this
    {
      if d in spaces then spaces[d].tabs else map[]
    }

    function Size(d: nat): (sz: nat)
      reads this
    {
      if d in sizes then sizes[d] else 0
    }

    /** After kinit1 and kinit2: everything is free. */
    constructor (end: nat, kd: nat)
      requires 0 < end <= FIRST && KernelData(kd)
      ensures Valid() && fresh(k) && sizes == map[] && spaces == map[] && held == {}
      ensures k.lo == RoundUp(end) && k.hi == PHYSTOP / PGSIZE && |k.free| == k.hi - k.lo
      ensures forall n: nat :: n in k.Free() <==> k.lo <= n < k.hi
    {
      var kmem := Kinit(end, PHYSTOP);
      this.k, this.kd, sizes := kmem, kd, map[];
      spaces, held := map[], {};
    }

    /** setupkvm for a new process. */
    method NewSpace() returns (d: Option<nat>)
      requires Valid()
      modifies this`sizes, this`spaces, k
      ensures Valid() && (d.None? <==> |old(k.free)| < KERNEL_PAGES)
      ensures d.None? ==> spaces == old(spaces) && sizes == old(sizes) && k.Free() == old(k.Free())
      ensures d.Some? ==> d.value !in old(spaces) && Joins(old(spaces), spaces, d.value)
      ensures d.Some? ==> sizes == old(sizes)[d.value := 0] && |k.free| == |old(k.free)| - KERNEL_PAGES
      ensures Untouched(old(k.mem), k.mem, old(spaces), 0, held)
    {
      hide World, Chained, NoRepeats, InRange, Set, SpaceOK, TablePages, KernelMapped, Owns, Outside, Good, Confined;
      ghost var free, was := k.Free(), spaces;
      ghost var sp;
      d, sp := Setupkvm(k, kd);
      if d.None? {
        Nowhere(k, old(k.mem), free, was, held);
      } else {
        NewcomerPages(k, sp, free);
        Arrives(k, old(k.mem), free, was, held, sp);
        assert RoundUp(0) == 0;
        spaces, sizes := spaces[d.value := sp], sizes[d.value := 0];
      }
    }

    /** copyuvm for the child of fork. A page below the size that is not mapped would be a panic. */
    method Fork(d: nat) returns (c: Option<nat>)
      requires Valid() && d in sizes && Full(Flat(d), Size(d))
      modifies this`sizes, this`spaces, k
      ensures Valid() && (c.None? <==> |old(k.free)| < CopyNeed(RoundUp(old(Size(d)))))
      ensures c.None? ==> spaces == old(spaces) && sizes == old(sizes) && k.Free() == old(k.Free())
      ensures c.Some? ==> c.value !in old(spaces) && Joins(old(spaces), spaces, c.value)
      ensures c.Some? ==> sizes == old(sizes)[c.value := old(Size(d))] && Full(Flat(c.value), Size(c.value))
      ensures c.Some? ==> Copied(old(k.mem), Flat(d), k.mem, Flat(c.value), RoundUp(Size(d)))
      ensures Untouched(old(k.mem), k.mem, old(spaces), 0, held)
    {
      hide World, Chained, NoRepeats, InRange, Set, SpaceOK, TablePages, KernelMapped, Owns, Outside, Good, Copied,
           Confined;
      ghost var free, was := k.Free(), spaces;
      SpaceOwned(k, spaces, held, d);
      ghost var r;
      c, r := Copyuvm(k, d, spaces[d], sizes[d], kd);
      if c.None? {
        Nowhere(k, old(k.mem), free, was, held);
      } else {
        Arrives(k, old(k.mem), free, was, held, r);
        CopiedProcess(old(k.mem), was[d].flat, k.mem, r.flat, sizes[d]);
        spaces, sizes := spaces[c.value := r], sizes[c.value := sizes[d]];
      }
    }

    /** allocuvm from the size of the process to newsz. */
    method Grow(d: nat, newsz: nat) returns (sz: nat, ok: bool)
      requires Valid() && d in sizes
      modifies this`spaces, k
      ensures Joins(old(spaces), spaces, d) && World(k.lo, k.hi, k.mem, k.Free(), spaces, held) && k.Valid()
      ensures Untouched(old(k.mem), k.mem, old(spaces), d, held)
      ensures !ok ==> sz == 0 && Flat(d) == old(Flat(d))
      ensures ok ==> sz == Max(Size(d), newsz) && ProcessOK(kd, Flat(d), sz)
      ensures ok ==> (Full(Flat(d), sz) <==> Full(old(Flat(d)), Size(d)))
      ensures Size(d) <= newsz ==>
        (ok <==> newsz < KERNBASE && |old(k.free)| >= AllocNeed(old(Tabs(d)), Size(d), newsz))
    {
      hide World, Chained, NoRepeats, InRange, Set, SpaceOK, TablePages, KernelMapped, Owns, Outside, Good, Grown, Zeroed,
           Need, RoundUp, Confined, Full, Below, Unmapped;
      ghost var free, was, sp := k.Free(), spaces, spaces[d];
      SpaceOwned(k, spaces, held, d);
      SpareInPool(k, sp);
      AboveUnmapped(sp.flat, sizes[d], newsz);
      ghost var r;
      sz, ok, r := Allocuvm(k, d, sp, sizes[d], newsz);
      Resides(k, old(k.mem), free, was, held, d, r, old(Spare(k, sp)));
      if ok && sizes[d] <= newsz {
        GrownProcess(kd, sp.flat, r.flat, sizes[d], newsz);
      }
      spaces := spaces[d := r];
    }

    /** deallocuvm from the size of the process to newsz. */
    method Shrink(d: nat, newsz: nat) returns (sz: nat)
      requires Valid() && d in sizes
      modifies this`spaces, k
      ensures Joins(old(spaces), spaces, d) && World(k.lo, k.hi, k.mem, k.Free(), spaces, held) && k.Valid()
      ensures Untouched(old(k.mem), k.mem, old(spaces), d, held)
      ensures sz == Min(Size(d), newsz) && ProcessOK(kd, Flat(d), sz)
      ensures Full(old(Flat(d)), Size(d)) ==> Full(Flat(d), sz)
      ensures newsz >= Size(d) ==> Flat(d) == old(Flat(d))
      ensures newsz < Size(d) ==> Flat(d) == Minus(old(Flat(d)), RoundUp(newsz), RoundUp(Size(d)))
    {
      hide World, Chained, NoRepeats, InRange, Set, SpaceOK, TablePages, KernelMapped, Owns, Outside, Good, Minus, Frames,
           RoundUp, Confined, Full, Below;
      ghost var free, was, sp := k.Free(), spaces, spaces[d];
      SpaceOwned(k, spaces, held, d);
      ShrinkFrames(k, sp, newsz, sizes[d]);
      var ok;
      ghost var r;
      sz, ok, r := Deallocuvm(k, d, sp, sizes[d], newsz);
      ShrunkPool(k, r, free, sp.role.Keys, Frames(sp.flat, RoundUp(newsz), RoundUp(sizes[d])), newsz < sizes[d]);
      Resides(k, old(k.mem), free, was, held, d, r, Spare(k, r));
      if newsz < sizes[d] {
        ShrunkProcess(kd, sp.flat, sizes[d], newsz);
      }
      spaces := spaces[d := r];
    }

    /** growproc: -1 is false. The size is a 32-bit unsigned number, so a decrease beyond it wraps and
        does nothing. A decrease to exactly 0 frees every page and then takes deallocuvm's 0 for a
        failure: the size stays, and the process no longer has the pages below it. */
    method Growproc(d: nat, n: int) returns (ok: bool)
      requires Valid() && d in sizes && -0x8000_0000 <= n < 0x8000_0000
      modifies this`sizes, this`spaces, k
      ensures Valid() && Joins(old(spaces), spaces, d) && sizes == old(sizes)[d := Size(d)]
      ensures Untouched(old(k.mem), k.mem, old(spaces), d, held)
      ensures n > 0 ==>
        (ok <==> old(Size(d)) + n < KERNBASE && |old(k.free)| >= AllocNeed(old(Tabs(d)), old(Size(d)), old(Size(d)) + n))
      ensures n < 0 ==> (ok <==> old(Size(d)) + n != 0 && old(Size(d)) != 0)
      ensures n == 0 ==> ok
      ensures Size(d) == if ok && old(Size(d)) + n >= 0 then old(Size(d)) + n else old(Size(d))
      ensures old(Full(Flat(d), Size(d))) ==> (Full(Flat(d), Size(d)) <==> !(n < 0 && old(Size(d)) + n == 0))
    {
      hide World, Chained, NoRepeats, InRange, Set, SpaceOK, TablePages, KernelMapped, Good, Confined, Minus, Untouched,
           Full, ProcessOK, RoundUp, AllocNeed;
      ghost var was, sz0 := spaces, sizes[d];
      var sz := sizes[d];
      if n > 0 {
        sz, ok := Grow(d, sz + n);
        if !ok {
          return false;
        }
      } else if n < 0 {
        var newsz := if sz + n < 0 then sz + n + 0x1_0000_0000 else sz + n;
        sz := Shrink(d, newsz);
        if sz == 0 {
          if sz0 > 0 {
            Emptied(kd, was[d].flat, sz0);
          }
          return false;
        }
      } else {
        NothingTouched(k, spaces, d, held);
      }
      sizes := sizes[d := sz];
      ok := true;
    }

    /** freevm for a process that wait has found. */
    method Free(d: nat)
      requires Valid() && d in sizes
      modifies this`sizes, this`spaces, k
      ensures Valid() && spaces == old(spaces) - {d} && sizes == old(sizes) - {d}
      ensures k.Free() == old(k.Free()) + PagesOf(old(spaces), d) && Untouched(old(k.mem), k.mem, old(spaces), d, held)
    {
      hide World, Chained, NoRepeats, InRange, Set, SpaceOK, TablePages, KernelMapped, Owns, Outside, Good, Confined;
      ghost var free, was := k.Free(), spaces;
      SpaceOwned(k, spaces, held, d);
      var ok := Freevm(k, d, spaces[d]);
      Departs(k, old(k.mem), free, was, held, d);
      spaces, sizes := spaces - {d}, sizes - {d};
    }

    /** kalloc for a kernel stack or a pipe. */
    method Take() returns (n: Option<nat>)
      requires Valid()
      modifies this`held, k
      ensures Valid() && (n.None? <==> old(k.free) == [])
      ensures n.None? ==> held == old(held)
      ensures n.Some? ==> n.value !in old(held) && held == old(held) + {n.value}
      ensures Untouched(old(k.mem), k.mem, spaces, 0, old(held))
    {
      hide World, Chained, NoRepeats, InRange, Set, SpaceOK, KernelMapped, Good;
      ghost var free := k.Free();
      NothingTouched(k, spaces, 0, held);
      n := k.Kalloc();
      if n.Some? {
        HandedOut(k.lo, k.hi, k.mem, free, spaces, held, n.value);
        held := held + {n.value};
      }
    }

    /** kfree of such a page. */
    method Give(n: nat) returns (ok: bool)
      requires Valid() && n in held
      modifies this`held, k
      ensures Valid() && ok && held == old(held) - {n} && k.Free() == old(k.Free()) + {n}
      ensures Untouched(old(k.mem), k.mem, spaces, 0, held)
    {
      hide World, Chained, NoRepeats, InRange, Set, SpaceOK, KernelMapped, Good;
      ghost var free, m := k.Free(), k.mem;
      HeldPage(k.lo, k.hi, k.mem, free, spaces, held, n);
      ok := k.Kfree(n);
      GivenBack(k.lo, k.hi, m, k.mem, free, spaces, held, n);
      held := held - {n};
    }
  }

  /** Space d was added or replaced; every other is as it was. */
  ghost predicate Joins(spaces: map<nat, Space>, spaces': map<nat, Space>, d: nat) {
    d in spaces' && spaces' == spaces[d := spaces'[d]]
  }

  ghost function AllocNeed(tabs: map<nat, nat>, sz: nat, newsz: nat): (n: nat)
    requires sz <= newsz
  {
    assert RoundUp(sz) <= RoundUp(newsz);
    Need(tabs, RoundUp(sz), RoundUp(newsz))
  }

  lemma {:induction false} SpareInPool(k: Kmem, sp: Space)
    ensures Spare(k, sp) <= Pool(k, sp)
  {
  }

  lemma {:induction false} ShrinkFrames(k: Kmem, sp: Space, newsz: nat, sz: nat)
    requires Owns(k, sp) && sz <= KERNBASE
    ensures Frames(sp.flat, RoundUp(newsz), RoundUp(sz)) <= sp.role.Keys
  {
    ApartFromSpare(k, sp, RoundUp(newsz), RoundUp(sz));
  }

  lemma {:induction false} ShrunkPool(k: Kmem, r: Space, free: set<nat>, role: set<nat>, frames: set<nat>, less: bool)
    requires frames <= role
    requires less ==> k.Free() == free + frames && r.role.Keys == role - frames
    requires !less ==> k.Free() == free && r.role.Keys == role
    ensures Pool(k, r) == free + role && Spare(k, r) <= Pool(k, r)
  {
    SpareInPool(k, r);
    forall n | n in role
      ensures n in Pool(k, r)
    {
    }
  }

  function Max(a: nat, b: nat): (m: nat) {
    if a < b then b else a
  }

  lemma {:induction false} AboveUnmapped(flat: map<nat, uint32>, sz: nat, newsz: nat)
    requires Below(flat, sz)
    ensures sz <= newsz < KERNBASE ==> Unmapped(flat, RoundUp(sz), RoundUp(newsz))
  {
  }

  lemma {:induction false} CopiedProcess(mem: Memory, flat: map<nat, uint32>, mem': Memory, flat': map<nat, uint32>,
                                         sz: nat)
    requires Copied(mem, flat, mem', flat', RoundUp(sz))
    ensures Below(flat', sz) && Full(flat', sz)
  {
    forall v | 0 <= v < RoundUp(sz)
      ensures v in flat'
    {
      assert SamePage(mem, flat, mem', flat', v);
    }
  }

  lemma {:induction false} SpaceOwned(k: Kmem, spaces: map<nat, Space>, held: set<nat>, d: nat)
    requires World(k.lo, k.hi, k.mem, k.Free(), spaces, held) && d in spaces
    ensures Owns(k, spaces[d]) && spaces[d].dir == d
  {
    hide SpaceOK, Claimed;
    assert Good(k.lo, k.hi, k.mem, k.Free(), spaces[d]);
  }

  lemma {:induction false} NewcomerPages(k: Kmem, sp: Space, free: set<nat>)
    requires Owns(k, sp) && Spare(k, sp) == free && forall v | v in sp.flat :: v >= USER
    ensures k.Free() + sp.role.Keys == free && Below(sp.flat, 0)
  {
    hide SpaceOK;
    NoUserPages(k, sp);
  }

  /** Directories are pages of their spaces, and page 0 is not kalloc's. */
  lemma {:induction false} Directories(lo: nat, hi: nat, mem: Memory, free: set<nat>, spaces: map<nat, Space>, held: set<nat>)
    requires World(lo, hi, mem, free, spaces, held) && lo > 0
    ensures 0 !in spaces && forall d | d in spaces :: d !in free
  {
    hide Claimed;
    forall d | d in spaces
      ensures d in spaces[d].role
    {
      assert Good(lo, hi, mem, free, spaces[d]);
    }
  }

  /** A call that gave everything back. */
  lemma {:induction false} Nowhere(k: Kmem, m0: Memory, free: set<nat>, spaces: map<nat, Space>, held: set<nat>)
    requires k.Valid() && World(k.lo, k.hi, m0, free, spaces, held)
    requires Outside(m0, k.mem, free) && k.Free() == free
    ensures World(k.lo, k.hi, k.mem, k.Free(), spaces, held) && Untouched(m0, k.mem, spaces, 0, held)
  {
    hide World, Outside, Good, Untouched, Chained, NoRepeats, InRange, Set;
    Directories(k.lo, k.hi, m0, free, spaces, held);
    assert free + PagesOf(spaces, 0) == free && k.Free() + PagesNow(None) == free;
    WorldKept(k.lo, k.hi, m0, free, spaces, held, k.mem, k.Free(), 0, None);
    assert Update(spaces, 0, None) == spaces;
  }

  /** A new space made of free pages. */
  lemma {:induction false} Arrives(k: Kmem, m0: Memory, free: set<nat>, spaces: map<nat, Space>, held: set<nat>, sp: Space)
    requires k.Valid() && World(k.lo, k.hi, m0, free, spaces, held)
    requires Outside(m0, k.mem, free) && Owns(k, sp) && k.Free() + sp.role.Keys == free
    ensures sp.dir !in spaces && World(k.lo, k.hi, k.mem, k.Free(), spaces[sp.dir := sp], held)
    ensures Untouched(m0, k.mem, spaces, 0, held)
  {
    hide World, Outside, Chained, NoRepeats, InRange, Set;
    Directories(k.lo, k.hi, m0, free, spaces, held);
    assert sp.dir in sp.role;
    hide SpaceOK;
    assert free + PagesOf(spaces, sp.dir) == free;
    WorldKept(k.lo, k.hi, m0, free, spaces, held, k.mem, k.Free(), sp.dir, Some(sp));
    UntouchedAll(m0, k.mem, spaces, sp.dir, held);
  }

  lemma {:induction false} UntouchedAll(m0: Memory, mem: Memory, spaces: map<nat, Space>, d: nat, held: set<nat>)
    requires Untouched(m0, mem, spaces, d, held) && d !in spaces
    ensures Untouched(m0, mem, spaces, 0, held)
  {
  }

  /** Space d and the free list exchanged pages. */
  lemma {:induction false} Resides(k: Kmem, m0: Memory, free: set<nat>, spaces: map<nat, Space>, held: set<nat>, d: nat,
                                   r: Space, s: set<nat>)
    requires k.Valid() && World(k.lo, k.hi, m0, free, spaces, held) && d in spaces
    requires Owns(k, r) && r.dir == d && Pool(k, r) == free + spaces[d].role.Keys
    requires Outside(m0, k.mem, s) && s <= Pool(k, r)
    ensures World(k.lo, k.hi, k.mem, k.Free(), spaces[d := r], held) && Untouched(m0, k.mem, spaces, d, held)
  {
    hide World, Chained, NoRepeats, InRange, Set, SpaceOK, Untouched;
    WorldKept(k.lo, k.hi, m0, free, spaces, held, k.mem, k.Free(), d, Some(r));
  }

  /** A process that grows by a page and gives it up again has a size of one page and no page. */
  method Forgets(end: nat, kd: nat) returns (m: Machine, d: nat)
    requires 0 < end <= FIRST && KernelData(kd)
    ensures fresh(m) && m.Valid() && d in m.sizes && m.Size(d) == PGSIZE && !Full(m.Flat(d), m.Size(d))
  {
    hide World, Chained, NoRepeats, InRange, Set, SpaceOK, TablePages, KernelMapped, Good, Confined, Minus, Untouched,
         ProcessOK, AllocNeed, Full;
    m := new Machine(end, kd);
    var p := m.NewSpace();
    d := p.value;
    assert Full(m.Flat(d), 0) by {
      NothingFull(m.Flat(d));
    }
    OnePage(m.Tabs(d));
    var ok := m.Growproc(d, PGSIZE);
    ok := m.Growproc(d, -PGSIZE);
  }

  lemma {:induction false} NothingFull(flat: map<nat, uint32>)
    ensures Full(flat, 0)
  {
  }

  lemma {:induction false} OnePage(tabs: map<nat, nat>)
    ensures AllocNeed(tabs, 0, PGSIZE) <= 2
  {
    hide Absent;
    assert RoundUp(0) == 0 && RoundUp(PGSIZE) == 1;
    SpentOne(tabs, 0, 0);
  }

  /** After a decrease to 0 the pages are gone, and none is mapped above the old size either. */
  lemma {:induction false} Emptied(kd: nat, flat: map<nat, uint32>, sz: nat)
    requires 0 < sz <= KERNBASE && ProcessOK(kd, Minus(flat, RoundUp(0), RoundUp(sz)), 0)
    ensures !Full(Minus(flat, RoundUp(0), RoundUp(sz)), sz) && ProcessOK(kd, Minus(flat, RoundUp(0), RoundUp(sz)), sz)
  {
    hide KernelMapped;
    assert 0 <= 0 < RoundUp(sz);
    assert 0 !in Minus(flat, RoundUp(0), RoundUp(sz));
  }

  lemma {:induction false} NothingTouched(k: Kmem, spaces: map<nat, Space>, d: nat, held: set<nat>)
    requires World(k.lo, k.hi, k.mem, k.Free(), spaces, held)
    ensures Untouched(k.mem, k.mem, spaces, d, held)
  {
    hide Claimed;
    forall e | e in spaces
      ensures Intact(k.mem, k.mem, spaces[e])
    {
      assert Good(k.lo, k.hi, k.mem, k.Free(), spaces[e]);
    }
  }

  /** Space d is gone and its pages are free. */
  lemma {:induction false} Departs(k: Kmem, m0: Memory, free: set<nat>, spaces: map<nat, Space>, held: set<nat>, d: nat)
    requires k.Valid() && World(k.lo, k.hi, m0, free, spaces, held) && d in spaces
    requires k.Free() == free + spaces[d].role.Keys && Outside(m0, k.mem, k.Free())
    ensures World(k.lo, k.hi, k.mem, k.Free(), spaces - {d}, held) && Untouched(m0, k.mem, spaces, d, held)
  {
    hide World, Chained, NoRepeats, InRange, Set, SpaceOK, Untouched, Outside, Good;
    assert k.Free() + PagesNow(None) == k.Free();
    WorldKept(k.lo, k.hi, m0, free, spaces, held, k.mem, k.Free(), d, None);
  }

  lemma {:induction false} HandedOut(lo: nat, hi: nat, mem: Memory, free: set<nat>, spaces: map<nat, Space>, held: set<nat>,
                                     n: nat)
    requires World(lo, hi, mem, free, spaces, held) && n in free && lo <= n < hi
    ensures n !in held && World(lo, hi, mem, free - {n}, spaces, held + {n})
  {
    hide Claimed, SpaceOK;
    forall d | d in spaces
      ensures Good(lo, hi, mem, free - {n}, spaces[d]) && spaces[d].role.Keys !! held + {n}
    {
      assert Good(lo, hi, mem, free, spaces[d]);
    }
  }

  lemma {:induction false} HeldPage(lo: nat, hi: nat, mem: Memory, free: set<nat>, spaces: map<nat, Space>, held: set<nat>,
                                    n: nat)
    requires World(lo, hi, mem, free, spaces, held) && n in held
    ensures lo <= n < hi && n !in free
  {
  }

  lemma {:induction false} GivenBack(lo: nat, hi: nat, m0: Memory, mem: Memory, free: set<nat>, spaces: map<nat, Space>,
                                     held: set<nat>, n: nat)
    requires World(lo, hi, m0, free, spaces, held) && n in held && Outside(m0, mem, {n})
    ensures World(lo, hi, mem, free + {n}, spaces, held - {n}) && Untouched(m0, mem, spaces, 0, held - {n})
  {
    hide Claimed, SpaceOK;
    forall d | d in spaces
      ensures Good(lo, hi, mem, free + {n}, spaces[d]) && Intact(m0, mem, spaces[d])
    {
      assert Good(lo, hi, m0, free, spaces[d]);
      RoleInMemory(m0, spaces[d]);
      Elsewhere(m0, mem, spaces[d]);
    }
  }
}
