/** kalloc.c: the free pages form a list linked through their own first words. */
module Kalloc {
  import opened Bytes
  import opened Options
  import opened PageTables

  const KERNBASE := 0x8000_0000

  /** The kernel's address of physical page n. */
  function Addr(n: nat): (v: uint32)
    requires n < USER
  {
    KERNBASE + n * PGSIZE
  }

  /** memset(v, 1, PGSIZE), then the link in the first word. */
  function Junk(link: uint32): (p: Page) {
    [link] + seq(PGWORDS - 1, i => 0x0101_0101)
  }

  ghost predicate InRange(free: seq<nat>, lo: nat, hi: nat) {
    forall i | 0 <= i < |free| :: lo <= free[i] < hi
  }

  ghost predicate NoRepeats(free: seq<nat>) {
    forall i, j | 0 <= i < j < |free| :: free[i] != free[j]
  }

  /** The pointer to the i-th free page; null after the last. */
  function Link(free: seq<nat>, i: nat): (v: uint32)
    requires i <= |free| && (i < |free| ==> free[i] < USER)
  {
    if i < |free| then Addr(free[i]) else 0
  }

  ghost predicate Chained(mem: Memory, freelist: uint32, free: seq<nat>)
    requires |mem| <= USER && InRange(free, 0, |mem|)
  {
    freelist == Link(free, 0) && forall i | 0 <= i < |free| :: mem[free[i]][0] == Link(free, i + 1)
  }

  ghost function Set(free: seq<nat>): (s: set<nat>) {
    set i | 0 <= i < |free| :: free[i]
  }

  class Kmem {
    /** Physical pages from the end of the kernel to PHYSTOP. */
    const lo: nat
    const hi: nat
    var mem: Memory
    var freelist: uint32
    ghost var free: seq<nat>

    /** kmem before kinit1: no page is free yet. */
    constructor (lo: nat, hi: nat)
      requires 0 < lo <= hi <= USER
      ensures this.lo == lo && this.hi == hi && Valid() && free == []
    {
      this.lo, this.hi := lo, hi;
      mem, freelist, free := seq(hi, n => Zeros()), 0, [];
    }

    ghost predicate Valid()
      reads this
    {
      && 0 < lo <= hi <= USER && |mem| == hi
      && InRange(free, lo, hi) && NoRepeats(free) && Chained(mem, freelist, free)
    }

    ghost function Free(): (s: set<nat>)
      reads this
    {
      Set(free)
    }

    method Kalloc() returns (r: Option<nat>)
      requires Valid()
      modifies this`freelist, this`free
      ensures Valid()
      ensures old(free) == [] ==> r == None && free == []
      ensures old(free) != [] ==> r == Some(old(free)[0]) && free == old(free)[1..]
      ensures r.None? ==> Free() == old(Free()) == {}
      ensures r.Some? ==> lo <= r.value < hi && r.value in old(Free()) && Free() == old(Free()) - {r.value}
    {
      if freelist == 0 {
        return None;
      }
      var n := (freelist - KERNBASE) / PGSIZE;
      r := Some(n);
      assert n == free[0];
      assert freelist == Link(free, 0) && mem[free[0]][0] == Link(free, 1);
      freelist := mem[n][0];
      SetTail(free);
      free := free[1..];
      ChainTail(mem, old(freelist), old(free));
    }

    /** False is the panic for an address outside the pages kalloc may manage. */
    method Kfree(n: nat) returns (ok: bool)
      requires Valid() && n !in Free()
      modifies this`mem, this`freelist, this`free
      ensures Valid() && ok == (lo <= n < hi)
      ensures ok ==> free == [n] + old(free) && mem == old(mem)[n := Junk(old(freelist))]
      ensures ok ==> mem[n][0] == old(freelist) && forall w | 0 < w < PGWORDS :: mem[n][w] == 0x0101_0101
      ensures ok ==> Free() == old(Free()) + {n}
      ensures !ok ==> free == old(free) && mem == old(mem)
    {
      if n < lo || n >= hi {
        return false;
      }
      ChainHead(mem, freelist, free, n);
      SetCons(n, free);
      mem := mem[n := Junk(freelist)];
      freelist := Addr(n);
      free := [n] + free;
      ok := true;
    }

    /** The whole pages between two physical addresses become free, the last one first. */
    method Freerange(start: nat, end: nat) returns (ok: bool)
      requires Valid()
      requires forall n | RoundUp(start) <= n < end / PGSIZE :: lo <= n < hi && n !in free
      modifies this`mem, this`freelist, this`free
      ensures Valid() && ok && free == Down(RoundUp(start), end / PGSIZE) + old(free)
    {
      hide Chained, NoRepeats, InRange, Set, RoundUp, Down, Junk;
      var p := RoundUp(start);
      ghost var first, last := RoundUp(start), end / PGSIZE;
      ok := true;
      DownNone(first, first);
      assert [] + free == free;
      while p * PGSIZE + PGSIZE <= end
        invariant Valid() && ok && first <= p && (p == first || p <= last)
        invariant free == Down(first, p) + old(free)
        decreases end - p
      {
        WholePage(p, end);
        SetIn(free, p);
        DownStep(first, p);
        assert p !in Down(first, p);
        ok := Kfree(p);
        assert [p] + (Down(first, p) + old(free)) == [p] + Down(first, p) + old(free);
        p := p + 1;
      }
      WholePage(p, end);
      if last < first {
        DownNone(first, last);
        DownNone(first, p);
      }
    }
  }

  lemma {:induction false} WholePage(p: nat, end: nat)
    ensures p * PGSIZE + PGSIZE <= end <==> p < end / PGSIZE
  {
  }

  lemma {:induction false} DownStep(a: nat, b: nat)
    requires a <= b
    ensures Down(a, b + 1) == [b] + Down(a, b)
  {
  }

  lemma {:induction false} DownNone(a: nat, b: nat)
    requires b <= a
    ensures Down(a, b) == []
  {
  }

  /** What entrypgdir maps: four megabytes. */
  const FIRST := 0x40_0000

  /** kinit1 and kinit2: every page from the end of the kernel to PHYSTOP is free.  A kernel that ends
      beyond the first four megabytes would run into kfree's panic. */
  method Kinit(end: nat, phystop: nat) returns (k: Kmem)
    requires 0 < end <= FIRST <= phystop < KERNBASE
    ensures fresh(k) && k.Valid() && k.lo == RoundUp(end) && k.hi == phystop / PGSIZE
    ensures |k.free| == k.hi - k.lo && forall n: nat :: n in k.Free() <==> k.lo <= n < k.hi
  {
    hide Chained, NoRepeats, InRange;
    k := new Kmem(RoundUp(end), phystop / PGSIZE);
    var ok := k.Freerange(end, FIRST);
    ok := k.Freerange(FIRST, phystop);
    forall n: nat
      ensures n in k.Free() <==> k.lo <= n < k.hi
    {
      SetIn(k.free, n);
      DownIn(RoundUp(end), FIRST / PGSIZE, n);
      DownIn(RoundUp(FIRST), phystop / PGSIZE, n);
    }
  }

  lemma {:induction false} DownIn(a: nat, b: nat, n: nat)
    ensures n in Down(a, b) <==> a <= n < b
  {
    if a < b {
      DownIn(a, b - 1, n);
    }
  }

  function RoundUp(a: nat): (n: nat) {
    (a + PGSIZE - 1) / PGSIZE
  }

  /** b - 1, b - 2, ..., a */
  function Down(a: nat, b: nat): (s: seq<nat>)
    ensures forall x | x in s :: a <= x < b
    ensures |s| == if a <= b then b - a else 0
  {
    if b <= a then [] else [b - 1] + Down(a, b - 1)
  }

  lemma {:induction false} ChainTail(mem: Memory, freelist: uint32, free: seq<nat>)
    requires |mem| <= USER && InRange(free, 0, |mem|) && Chained(mem, freelist, free) && free != []
    ensures InRange(free[1..], 0, |mem|) && Chained(mem, mem[free[0]][0], free[1..])
  {
    var rest := free[1..];
    forall i | 0 <= i < |rest|
      ensures mem[rest[i]][0] == Link(rest, i + 1)
    {
      assert mem[free[i + 1]][0] == Link(free, i + 2);
    }
  }

  lemma {:induction false} ChainHead(mem: Memory, freelist: uint32, free: seq<nat>, n: nat)
    requires |mem| <= USER && InRange(free, 0, |mem|) && Chained(mem, freelist, free) && n < |mem| && n !in free
    ensures InRange([n] + free, 0, |mem|) && Chained(mem[n := Junk(freelist)], Addr(n), [n] + free)
  {
    var all := [n] + free;
    var mem' := mem[n := Junk(freelist)];
    forall i | 0 <= i < |all|
      ensures mem'[all[i]][0] == Link(all, i + 1)
    {
      if i > 0 {
        assert mem[free[i - 1]][0] == Link(free, i);
      }
    }
  }

  lemma {:induction false} SetIn(free: seq<nat>, n: nat)
    ensures n in Set(free) <==> n in free
  {
  }

  lemma {:induction false} FreeInRange(k: Kmem)
    requires k.Valid()
    ensures forall n | n in k.Free() :: k.lo <= n < k.hi
  {
  }

  lemma {:induction false} SetTail(free: seq<nat>)
    requires NoRepeats(free) && free != []
    ensures free[0] in Set(free) && Set(free[1..]) == Set(free) - {free[0]}
  {
    SetCons(free[0], free[1..]);
    assert free == [free[0]] + free[1..];
  }

  lemma {:induction false} SetCons(n: nat, free: seq<nat>)
    ensures Set([n] + free) == {n} + Set(free)
  {
    var all := [n] + free;
    forall x | x in Set(all)
      ensures x in {n} + Set(free)
    {
      var i :| 0 <= i < |all| && all[i] == x;
      assert i > 0 ==> free[i - 1] == x;
    }
    forall x | x in {n} + Set(free)
      ensures x in Set(all)
    {
      if x == n {
        assert all[0] == x;
      } else {
        var i :| 0 <= i < |free| && free[i] == x;
        assert all[i + 1] == x;
      }
    }
  }
}
