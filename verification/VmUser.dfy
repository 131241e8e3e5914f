/** vm.c: the size of a process. allocuvm either maps zeroed pages over exactly the new range or leaves
    the mapping as it was. */
module VmUser {
  import opened Bytes
  import opened Options
  import opened PageTables
  import opened Kalloc
  import opened Vm

  /** The pages of a space are its tables and its user pages. */
  lemma {:induction false} RolesAre(mem: Memory, sp: Space)
    requires SpaceOK(mem, sp)
    ensures sp.role.Keys == TablePages(sp) + Frames(sp.flat, 0, USER)
  {
    forall n | n in sp.role
      ensures n in TablePages(sp) + Frames(sp.flat, 0, USER)
    {
      assert RoleOK(sp, n);
    }
  }

  // ---------- pages on their way in and out ----------

  /** Writes a page of no one's. */
  method Store(k: Kmem, ghost sp: Space, n: nat, data: Page)
    requires k.Valid() && Owns(k, sp) && Stranger(k, sp, n)
    modifies k`mem
    ensures k.Valid() && Owns(k, sp) && k.mem == old(k.mem)[n := data]
  {
    hide Chained, NoRepeats, InRange, Set, SpaceOK;
    FreeInRange(k);
    ghost var m := k.mem;
    k.mem := k.mem[n := data];
    assert forall q | q in sp.role && Holds(sp, q) :: k.mem[q] == m[q] by {
      RoleInMemory(m, sp);
    }
    Elsewhere(m, k.mem, sp);
    StillChained(k, m);
  }

  lemma {:induction false} RoleInMemory(mem: Memory, sp: Space)
    requires SpaceOK(mem, sp)
    ensures forall q | q in sp.role :: q < |mem|
  {
  }

  /** kfree of a page of no one's. */
  method GiveBack(k: Kmem, ghost sp: Space, n: nat) returns (ok: bool)
    requires k.Valid() && Owns(k, sp) && Stranger(k, sp, n)
    modifies k
    ensures k.Valid() && Owns(k, sp) && ok && k.Free() == old(k.Free()) + {n} && Outside(old(k.mem), k.mem, {n})
  {
    hide Chained, NoRepeats, InRange, Set, SpaceOK;
    ghost var m := k.mem;
    RoleInMemory(m, sp);
    ok := k.Kfree(n);
    Elsewhere(m, k.mem, sp);
  }

  /** One page mapped for the user: writable. */
  const USER_PERM := PTE_W + PTE_U

  method MapUserPage(k: Kmem, d: nat, ghost sp: Space, v: nat, n: nat, perm: nat) returns (ok: bool, ghost r: Space)
    requires k.Valid() && Owns(k, sp) && d == sp.dir && v < USER && v !in sp.flat && Stranger(k, sp, n) && perm < PGSIZE
    modifies k
    ensures k.Valid() && Owns(k, r) && Spare(k, r) == old(Spare(k, sp)) && r.dir == d
    ensures Outside(old(k.mem), k.mem, old(Spare(k, sp)))
    ensures n < VPAGES && r.flat == if ok then sp.flat[v := Pte(n, perm)] else sp.flat
    ensures !ok ==> k.Free() == {}
    ensures ok <==> |old(k.free)| >= |Absent(sp.tabs, v, 1)|
    ensures ok ==> Spent(sp.tabs, r.tabs, |old(k.free)|, |k.free|, v, 1, 0)
  {
    hide Chained, NoRepeats, InRange, Set, SpaceOK, TablePages, Owns, Spare, Outside, Pte, Absent;
    var res;
    ghost var j;
    assert Count(v * PGSIZE, PGSIZE) == 1 && n * PGSIZE / PGSIZE == n && v * PGSIZE / PGSIZE == v;
    assert Strangers(k, sp, v, 1, n);
    PlusNone(sp.flat, v, n, perm);
    PlusStep(sp.flat, v, 0, n, perm);
    res, r, j := Mappages(k, d, sp, v * PGSIZE, PGSIZE, n * PGSIZE, perm);
    ok := res.Mapped?;
  }

  // ---------- growing ----------

  /** Exactly the pages from a up to b are new, with the user's permissions; the rest is as it was. */
  ghost predicate Grown(flat: map<nat, uint32>, flat': map<nat, uint32>, a: nat, b: nat) {
    && (forall v :: v in flat' <==> v in flat || a <= v < b)
    && (forall v | v in flat :: flat'[v] == flat[v])
    && (forall v | v in flat' && v !in flat :: Flags(flat'[v]) == PTE_P + PTE_W + PTE_U)
  }

  ghost predicate Zeroed(mem: Memory, flat: map<nat, uint32>, a: nat, b: nat) {
    forall v | v in flat && a <= v < b :: PageOf(flat[v]) < |mem| && mem[PageOf(flat[v])] == Zeros()
  }

  ghost predicate Unmapped(flat: map<nat, uint32>, a: nat, b: nat) {
    forall v | v in flat :: !(a <= v < b)
  }

  lemma {:induction false} GrownNone(flat: map<nat, uint32>, mem: Memory, a: nat)
    ensures Grown(flat, flat, a, a) && Zeroed(mem, flat, a, a) && Frames(flat, a, a) == {}
  {
  }

  lemma {:induction false} GrownStep(flat: map<nat, uint32>, flat': map<nat, uint32>, a: nat, b: nat, n: nat)
    requires Grown(flat, flat', a, b) && a <= b && b !in flat && n < VPAGES
    ensures b !in flat'
    ensures Grown(flat, flat'[b := Pte(n, USER_PERM)], a, b + 1)
    ensures Frames(flat'[b := Pte(n, USER_PERM)], a, b + 1) == Frames(flat', a, b) + {n}
  {
    var f := flat'[b := Pte(n, USER_PERM)];
    forall q | q in Frames(flat', a, b) + {n}
      ensures q in Frames(f, a, b + 1)
    {
      if q == n {
        assert PageOf(f[b]) == n && a <= b < b + 1;
      } else {
        var v :| v in flat' && a <= v < b && PageOf(flat'[v]) == q;
        assert v in f && PageOf(f[v]) == q;
      }
    }
  }

  lemma {:induction false} GrownUndone(flat: map<nat, uint32>, flat': map<nat, uint32>, a: nat, b: nat, c: nat)
    requires Grown(flat, flat', a, b) && a <= b <= c && Unmapped(flat, a, c)
    ensures Minus(flat', a, c) == flat && Frames(flat', a, c) == Frames(flat', a, b)
  {
  }

  lemma {:induction false} GrownFrames(flat: map<nat, uint32>, flat': map<nat, uint32>, a: nat, b: nat)
    requires Grown(flat, flat', a, b) && a <= b <= USER
    ensures Frames(flat', 0, USER) == Frames(flat, 0, USER) + Frames(flat', a, b)
  {
    forall q | q in Frames(flat, 0, USER) + Frames(flat', a, b)
      ensures q in Frames(flat', 0, USER)
    {
      if q in Frames(flat, 0, USER) {
        var v :| v in flat && 0 <= v < USER && PageOf(flat[v]) == q;
        assert v in flat' && PageOf(flat'[v]) == q;
      }
    }
  }

  /** User pages are neither free nor tables. */
  lemma {:induction false} FramesNotSpare(k: Kmem, sp: Space)
    requires Owns(k, sp)
    ensures Frames(sp.flat, 0, USER) !! Spare(k, sp) && forall q | q in Frames(sp.flat, 0, USER) :: q in sp.role
  {
  }

  /** Writing elsewhere leaves zeroed pages zero. */
  lemma {:induction false} StillZeroed(mem: Memory, mem': Memory, s: set<nat>, flat: map<nat, uint32>, a: nat, b: nat)
    requires Zeroed(mem, flat, a, b) && Outside(mem, mem', s) && Frames(flat, a, b) !! s
    ensures Zeroed(mem', flat, a, b)
  {
    forall v | v in flat && a <= v < b
      ensures PageOf(flat[v]) < |mem'| && mem'[PageOf(flat[v])] == Zeros()
    {
      assert PageOf(flat[v]) in Frames(flat, a, b);
    }
  }

  /** One round of allocuvm or copyuvm: a page from kalloc, filled with data and mapped at v. The page
      is handed back to the caller if the mapping fails. */
  method AddPage(k: Kmem, d: nat, ghost sp: Space, v: nat, data: Page, perm: nat) returns (n: Option<nat>,
                 ok: bool, ghost r: Space)
    requires k.Valid() && Owns(k, sp) && d == sp.dir && v < USER && v !in sp.flat && perm < PGSIZE
    modifies k
    ensures k.Valid() && Owns(k, r) && r.dir == d && Outside(old(k.mem), k.mem, old(Spare(k, sp))) && (ok ==> n.Some?)
    ensures n.None? ==> r == sp && k.Free() == old(k.Free()) == {} && k.mem == old(k.mem)
    ensures n.Some? ==> n.value in old(k.Free()) && n.value < k.hi && Spare(k, r) + {n.value} == old(Spare(k, sp))
    ensures ok ==> n.value < VPAGES && r.flat == sp.flat[v := Pte(n.value, perm)] && k.mem[n.value] == data
    ensures !ok ==> r.flat == sp.flat && (n.Some? ==> Stranger(k, r, n.value) && k.Free() == {})
    ensures ok <==> |old(k.free)| >= 1 + |Absent(sp.tabs, v, 1)|
    ensures ok ==> Spent(sp.tabs, r.tabs, |old(k.free)|, |k.free|, v, 1, 1)
  {
    hide Chained, NoRepeats, InRange, Set, SpaceOK, TablePages, Pte, Absent;
    r, ok := sp, false;
    n := k.Kalloc();
    if n.None? {
      return;
    }
    RolesAre(k.mem, sp);
    FreeNotTable(sp, n.value);
    Store(k, sp, n.value, data);
    ghost var m := k.mem;
    ok, r := MapUserPage(k, d, sp, v, n.value, perm);
    if !ok {
      FrameIsNew(k.mem, r, n.value, sp);
    }
  }

  lemma {:induction false} FreeNotTable(sp: Space, n: nat)
    requires n !in sp.role
    ensures n !in TablePages(sp)
  {
  }

  /** A page that is no table and not mapped is a stranger. */
  lemma {:induction false} FrameIsNew(mem: Memory, r: Space, n: nat, sp: Space)
    requires SpaceOK(mem, r) && n !in TablePages(r) && r.flat == sp.flat && n !in Frames(sp.flat, 0, USER)
    ensures n !in r.role
  {
    RolesAre(mem, r);
  }

  /** The free pages needed to map pages from a up to b: these and their absent tables. */
  ghost function Need(tabs: map<nat, nat>, a: nat, b: nat): (n: nat)
    requires a <= b
  {
    b - a + |Absent(tabs, a, b - a)|
  }

  /** Grows the user part from oldsz to newsz bytes; ok is false where the code returns 0: exactly when
      newsz reaches the kernel or fewer pages are free than the range and its absent tables need. On
      success the new range is mapped to zeroed pages; otherwise the mapping is what it was. No page
      is lost either way. */
  method Allocuvm(k: Kmem, d: nat, ghost sp: Space, oldsz: nat, newsz: nat) returns (sz: nat, ok: bool, ghost r: Space)
    requires k.Valid() && Owns(k, sp) && d == sp.dir
    requires oldsz <= newsz < KERNBASE ==> Unmapped(sp.flat, RoundUp(oldsz), RoundUp(newsz))
    modifies k
    ensures k.Valid() && Owns(k, r) && r.dir == d && Pool(k, r) == old(Pool(k, sp))
    ensures Outside(old(k.mem), k.mem, old(Spare(k, sp)))
    ensures newsz >= KERNBASE ==> !ok
    ensures newsz < oldsz && newsz < KERNBASE ==> ok && sz == oldsz && r == sp
    ensures !ok ==> sz == 0 && r.flat == sp.flat
    ensures oldsz <= newsz < KERNBASE ==> (ok <==> |old(k.free)| >= Need(sp.tabs, RoundUp(oldsz), RoundUp(newsz)))
    ensures ok && oldsz <= newsz ==> sz == newsz && Grown(sp.flat, r.flat, RoundUp(oldsz), RoundUp(newsz))
                                     && Zeroed(k.mem, r.flat, RoundUp(oldsz), RoundUp(newsz))
  {
    hide Chained, NoRepeats, InRange, Set, SpaceOK, TablePages, Grown, Zeroed, Unmapped, Frames, Absent, Spent, Need,
         RoundUp, Pool, Spare, Owns, Outside;
    r := sp;
    OutsideNone(k.mem, Spare(k, sp));
    if newsz >= KERNBASE {
      return 0, false, sp;
    }
    if newsz < oldsz {
      return oldsz, true, sp;
    }
    ghost var from, to, s := RoundUp(oldsz), RoundUp(newsz), Spare(k, sp);
    var a := RoundUp(oldsz);
    PoolSplit(k, sp);
    RoundUpLeast(from, oldsz, newsz);
    GrownNone(sp.flat, k.mem, from);
    SpentNone(sp.tabs, |k.free|, from);
    while a * PGSIZE < newsz
      invariant from <= a <= to && Growing(k, sp, r, old(k.mem), from, a, s, |old(k.free)|)
      decreases newsz - a
    {
      RoundUpLeast(a, oldsz, newsz);
      ghost var m := k.mem;
      var n, done;
      n, done, r := GrowPage(k, d, r, a, sp, old(k.mem), from, to, s, |old(k.free)|);
      if !done {
        m := k.mem;
        r := Undo(k, d, r, oldsz, newsz, n, sp.flat, a, s);
        OutsideTwice(old(k.mem), m, k.mem, s);
        PoolSplit(k, r);
        return 0, false, r;
      }
      a := a + 1;
    }
    RoundUpLeast(a, oldsz, newsz);
    SpentEnough(sp.tabs, r.tabs, |old(k.free)|, |k.free|, from, to);
    PoolSplit(k, r);
    GrownFrames(sp.flat, r.flat, from, a);
    Regroup(Spare(k, r), Frames(r.flat, from, a), Frames(sp.flat, 0, USER));
    return newsz, true, r;
  }

  lemma {:induction false} PoolSplit(k: Kmem, sp: Space)
    requires Owns(k, sp)
    ensures Pool(k, sp) == Spare(k, sp) + Frames(sp.flat, 0, USER)
  {
    hide SpaceOK, TablePages, Frames;
    RolesAre(k.mem, sp);
  }

  lemma {:induction false} Regroup(a: set<nat>, b: set<nat>, c: set<nat>)
    ensures a + (c + b) == (a + b) + c
  {
  }

  lemma {:induction false} RoundUpLeast(a: nat, oldsz: nat, newsz: nat)
    requires oldsz <= newsz <= KERNBASE
    ensures a * PGSIZE < newsz <==> a < RoundUp(newsz)
    ensures RoundUp(oldsz) <= RoundUp(newsz) <= USER
  {
  }

  /** The space so far: pages from `from` up to a are new and zero, and everything new came from s. */
  ghost predicate Growing(k: Kmem, sp: Space, r: Space, m0: Memory, from: nat, a: nat, s: set<nat>, before: nat)
    reads k
  {
    && k.Valid() && Owns(k, r) && r.dir == sp.dir && from <= a
    && Grown(sp.flat, r.flat, from, a) && Zeroed(k.mem, r.flat, from, a)
    && Spare(k, r) + Frames(r.flat, from, a) == s && Outside(m0, k.mem, s)
    && Spent(sp.tabs, r.tabs, before, |k.free|, from, a - from, a - from)
  }

  /** One round of allocuvm. */
  method GrowPage(k: Kmem, d: nat, ghost r: Space, a: nat, ghost sp: Space, ghost m0: Memory, ghost from: nat,
                  ghost to: nat, ghost s: set<nat>, ghost before: nat) returns (n: Option<nat>, done: bool,
                  ghost r': Space)
    requires Growing(k, sp, r, m0, from, a, s, before) && d == sp.dir && a < to <= USER && Unmapped(sp.flat, from, to)
    modifies k
    ensures done ==> Growing(k, sp, r', m0, from, a + 1, s, before)
    ensures !done ==> before < Need(sp.tabs, from, to) && k.Valid() && Owns(k, r') && r'.dir == d
    ensures !done ==> Grown(sp.flat, r'.flat, from, a) && (n.Some? ==> Stranger(k, r', n.value))
    ensures !done ==> Spare(k, r') + Frames(r'.flat, from, a) + (if n.Some? then {n.value} else {}) == s
    ensures !done ==> Outside(m0, k.mem, s)
  {
    hide Chained, NoRepeats, InRange, Set, SpaceOK, TablePages, Pte, Grown, Zeroed, Unmapped, Minus, Frames, Absent,
         Spent;
    ghost var m, spare, between := k.mem, Spare(k, r), |k.free|;
    UnmappedAt(sp.flat, r.flat, from, to, a);
    ApartFromSpare(k, r, from, a);
    n, done, r' := AddPage(k, d, r, a, Zeros(), USER_PERM);
    OutsideMore(m0, m, k.mem, spare, s);
    if done {
      GrownStep(sp.flat, r.flat, from, a, n.value);
      StillZeroed(m, k.mem, spare, r.flat, from, a);
      ZeroedStep(k.mem, r.flat, from, a, n.value);
      SpentStep(sp.tabs, r.tabs, r'.tabs, before, between, |k.free|, from, a - from, a - from, 1);
    } else {
      SpentStuck(sp.tabs, r.tabs, before, between, from, a - from, a - from, 1, to - from);
    }
  }

  lemma {:induction false} SpentEnough(tabs: map<nat, nat>, tabs': map<nat, nat>, before: nat, after: nat, a: nat,
                                       b: nat)
    requires a <= b && Spent(tabs, tabs', before, after, a, b - a, b - a)
    ensures before >= Need(tabs, a, b)
  {
  }

  lemma {:induction false} UnmappedAt(flat: map<nat, uint32>, flat': map<nat, uint32>, a: nat, c: nat, b: nat)
    requires Unmapped(flat, a, c) && a <= b < c && Grown(flat, flat', a, b)
    ensures b !in flat && b !in flat'
  {
  }

  lemma {:induction false} ApartFromSpare(k: Kmem, sp: Space, a: nat, b: nat)
    requires Owns(k, sp) && b <= USER
    ensures Frames(sp.flat, a, b) !! Spare(k, sp) && Frames(sp.flat, a, b) <= sp.role.Keys
  {
    FramesNotSpare(k, sp);
    forall q | q in Frames(sp.flat, a, b)
      ensures q in Frames(sp.flat, 0, USER)
    {
      var v :| v in sp.flat && a <= v < b && PageOf(sp.flat[v]) == q;
      assert 0 <= v < USER;
    }
  }

  lemma {:induction false} OutsideMore(a: Memory, b: Memory, c: Memory, s: set<nat>, s': set<nat>)
    requires Outside(a, b, s') && Outside(b, c, s) && s <= s'
    ensures Outside(a, c, s')
  {
  }

  lemma {:induction false} ZeroedStep(mem: Memory, flat: map<nat, uint32>, a: nat, b: nat, n: nat)
    requires Zeroed(mem, flat, a, b) && n < VPAGES && n < |mem| && mem[n] == Zeros() && b !in flat
    ensures Zeroed(mem, flat[b := Pte(n, USER_PERM)], a, b + 1)
  {
  }

  /** The failure path of allocuvm: everything mapped so far is unmapped, and a page that could not be
      mapped goes back. */
  method Undo(k: Kmem, d: nat, ghost sp: Space, oldsz: nat, newsz: nat, n: Option<nat>, ghost flat: map<nat, uint32>,
              ghost b: nat, ghost s: set<nat>) returns (ghost r: Space)
    requires k.Valid() && Owns(k, sp) && d == sp.dir && oldsz <= newsz < KERNBASE
    requires Grown(flat, sp.flat, RoundUp(oldsz), b) && RoundUp(oldsz) <= b < RoundUp(newsz)
    requires Unmapped(flat, RoundUp(oldsz), RoundUp(newsz)) && (n.Some? ==> Stranger(k, sp, n.value))
    requires Spare(k, sp) + Frames(sp.flat, RoundUp(oldsz), b) + (if n.Some? then {n.value} else {}) == s
    modifies k
    ensures k.Valid() && Owns(k, r) && r.dir == d && r.flat == flat && Spare(k, r) == s
    ensures Outside(old(k.mem), k.mem, s)
  {
    hide Chained, NoRepeats, InRange, Set, SpaceOK, TablePages, Pte, Grown, Unmapped, Minus, Frames;
    ghost var from, to := RoundUp(oldsz), RoundUp(newsz);
    GrownUndone(flat, sp.flat, from, b, to);
    ApartFromSpare(k, sp, from, to);
    var sz, ok;
    sz, ok, r := Deallocuvm(k, d, sp, newsz, oldsz);
    if n.Some? {
      ok := GiveBack(k, r, n.value);
    }
  }
}
