/** umalloc.c: the circular free list threaded through the headers, after section 8.7 of
    Kernighan and Ritchie, The C Programming Language, 2nd edition.  Headers live at byte
    addresses; `ptr` and `size` are the two words of the header at an address.  The static header
    `base` lies below every address sbrk returns. */
module Umalloc {
  import opened Options
  import opened FreeList

  const MINUNITS := 4096

  /** `(nbytes + sizeof(Header) - 1)/sizeof(Header) + 1` in 32-bit unsigned arithmetic. */
  function Units(nbytes: nat): (n: nat)
    ensures n >= 1
  {
    (nbytes + UNIT - 1) % 0x1_0000_0000 / UNIT + 1
  }

  /** The int that sbrk receives for nu units: a 32-bit product read as signed. */
  function SbrkArg(nu: nat): (n: int) {
    var w := (if nu < MINUNITS then MINUNITS else nu) * UNIT % 0x1_0000_0000;
    if w < 0x8000_0000 then w else w - 0x1_0000_0000
  }

  /** A request is served with enough bytes out of memory that was really obtained exactly up to
      this size: beyond it the byte count given to sbrk turns negative, and for the last few values
      the unit count itself wraps to one. */
  lemma {:induction false} RequestSoundIff(nbytes: nat)
    requires nbytes < 0x1_0000_0000
    ensures UNIT * (Units(nbytes) - 1) >= nbytes && SbrkArg(Units(nbytes)) >= UNIT * Units(nbytes)
            <==> nbytes <= 0x7FFF_FFF0
  {
    var m := nbytes + UNIT - 1;
    if m < 0x1_0000_0000 {
      assert m % 0x1_0000_0000 == m;
    } else {
      assert m % 0x1_0000_0000 == m - 0x1_0000_0000;
    }
  }

  // ---------- the ring in memory ----------

  function Next(i: nat, n: nat): (j: nat) {
    if i + 1 == n then 0 else i + 1
  }

  /** Header i of the list is in memory: its size, and a pointer to the next header. */
  ghost predicate NodeAt(ptr: map<nat, nat>, size: map<nat, nat>, f: seq<Blk>, i: nat)
    requires i < |f|
  {
    && f[i].addr in ptr && f[i].addr in size && size[f[i].addr] == f[i].units
    && ptr[f[i].addr] == f[Next(i, |f|)].addr
  }

  ghost predicate Ring(ptr: map<nat, nat>, size: map<nat, nat>, f: seq<Blk>) {
    forall i | 0 <= i < |f| :: NodeAt(ptr, size, f, i)
  }

  /** Linking b after header j. */
  lemma {:induction false} RingPut(ptr: map<nat, nat>, size: map<nat, nat>, f: seq<Blk>, b: Blk, j: nat)
    requires Ring(ptr, size, f) && Sorted(f) && j < |f| && b.addr in size && size[b.addr] == b.units
    requires forall i | 0 <= i < |f| :: f[i].addr != b.addr
    ensures f[j].addr in ptr && Ring(ptr[b.addr := ptr[f[j].addr]][f[j].addr := b.addr], size, Put(f, b, j))
  {
    assert NodeAt(ptr, size, f, j);
    var ptr', g := ptr[b.addr := ptr[f[j].addr]][f[j].addr := b.addr], Put(f, b, j);
    forall i | 0 <= i < |g| ensures NodeAt(ptr', size, g, i) {
      if i != j + 1 {
        var k := if i <= j then i else i - 1;
        assert NodeAt(ptr, size, f, k);
        if k != j {
          Increasing(f, if k < j then k else j, if k < j then j else k);
        }
      }
    }
  }

  /** Unlinking header t, whose predecessor is q. */
  lemma {:induction false} RingDrop(ptr: map<nat, nat>, size: map<nat, nat>, f: seq<Blk>, t: nat)
    requires Ring(ptr, size, f) && Sorted(f) && 0 < t < |f|
    ensures f[t].addr in ptr && Ring(ptr[f[t - 1].addr := ptr[f[t].addr]], size, f[..t] + f[t + 1..])
  {
    assert NodeAt(ptr, size, f, t) && NodeAt(ptr, size, f, t - 1);
    var ptr', g := ptr[f[t - 1].addr := ptr[f[t].addr]], f[..t] + f[t + 1..];
    forall i | 0 <= i < |g| ensures NodeAt(ptr', size, g, i) {
      var m := if i < t then i else i + 1;
      assert NodeAt(ptr, size, f, m);
      if m != t - 1 {
        Increasing(f, if m < t - 1 then m else t - 1, if m < t - 1 then t - 1 else m);
      }
    }
  }

  /** Giving header t another size. */
  lemma {:induction false} RingShrink(ptr: map<nat, nat>, size: map<nat, nat>, f: seq<Blk>, t: nat, units: nat)
    requires Ring(ptr, size, f) && t < |f|
    requires forall i | 0 <= i < |f| && i != t :: f[i].addr != f[t].addr
    ensures Ring(ptr, size[f[t].addr := units], f[t := Blk(f[t].addr, units)])
  {
    var size', g := size[f[t].addr := units], f[t := Blk(f[t].addr, units)];
    forall i | 0 <= i < |g| ensures NodeAt(ptr, size', g, i) {
      assert NodeAt(ptr, size, f, i);
    }
  }

  /** Absorbing header k + 1 into header k. */
  lemma {:induction false} RingJoin(ptr: map<nat, nat>, size: map<nat, nat>, f: seq<Blk>, k: nat)
    requires Ring(ptr, size, f) && Sorted(f) && k + 1 < |f| && f[k].End() == f[k + 1].addr
    ensures f[k + 1].addr in ptr
    ensures Ring(ptr[f[k].addr := ptr[f[k + 1].addr]], size[f[k].addr := f[k].units + f[k + 1].units], Join(f, k))
  {
    hide Ring, Sorted;
    RingDrop(ptr, size, f, k + 1);
    var g := f[..k + 1] + f[k + 2..];
    forall i | 0 <= i < |g| && i != k ensures g[i].addr != g[k].addr {
      var m := if i <= k then i else i + 1;
      Increasing(f, if m < k then m else k, if m < k then k else m);
    }
    RingShrink(ptr[f[k].addr := ptr[f[k + 1].addr]], size, g, k, f[k].units + f[k + 1].units);
    assert Join(f, k) == g[k := Blk(f[k].addr, f[k].units + f[k + 1].units)];
  }

  /** A live block keeps its header, lies in memory obtained, and overlaps no free block. */
  ghost predicate LiveBlock(size: map<nat, nat>, f: seq<Blk>, b: Blk, got: set<nat>, brk: nat) {
    && b.addr in size && size[b.addr] == b.units
    && Apart(f, b) && b.End() <= brk && BlockWithin(b, got)
  }

  ghost predicate LiveBlocks(size: map<nat, nat>, f: seq<Blk>, live: seq<Blk>, got: set<nat>, brk: nat) {
    && (forall i | 0 <= i < |live| :: LiveBlock(size, f, live[i], got, brk))
    && forall i, j | 0 <= i < j < |live| :: Disjoint(live[i], live[j])
  }

  /** Headers other than bp and the free ones keep their size. */
  ghost predicate SizesKept(size: map<nat, nat>, size': map<nat, nat>, f: seq<Blk>, bp: nat) {
    forall a | a in size && a != bp && (forall i | 0 <= i < |f| :: f[i].addr != a) :: a in size' && size'[a] == size[a]
  }

  lemma {:induction false} LiveAfterFree(size: map<nat, nat>, size': map<nat, nat>, f: seq<Blk>, live: seq<Blk>,
        got: set<nat>, brk: nat,
                                         i: nat)
    requires Ordered(f) && i < |live| && LiveBlocks(size, f, live, got, brk) && SizesKept(size, size', f, live[i].addr)
    requires f[0].addr < live[i].addr
    ensures LiveBlocks(size', Insert(f, live[i]), live[..i] + live[i + 1..], got, brk)
  {
    hide Insert, Ordered, BlockWithin;
    var l := live[..i] + live[i + 1..];
    assert LiveBlock(size, f, live[i], got, brk);
    forall k | 0 <= k < |l| ensures LiveBlock(size', Insert(f, live[i]), l[k], got, brk) {
      var m := if k < i then k else k + 1;
      assert LiveBlock(size, f, live[m], got, brk);
      assert Disjoint(live[i], live[m]);
      InsertApart(f, live[i], live[m]);
      AddrsApart(f, live[m]);
    }
  }

  // ---------- free, morecore, malloc ----------

  /** The list f' is f with n units at address a freed into it. */
  ghost predicate GrownBy(f: seq<Blk>, a: nat, n: nat, f': seq<Blk>) {
    f != [] && f[0].addr < a && f' == Insert(f, Blk(a, n))
  }

  /** sbrk is asked for all the units that are then freed, 4096 at least. */
  lemma {:induction false} ArgIs(nu: nat)
    requires SbrkArg(nu) >= UNIT * nu
    ensures SbrkArg(nu) == UNIT * if nu < 4096 then 4096 else nu
  {
  }

  /** Header p is the last one of the list below address a. */
  ghost predicate Precedes(f: seq<Blk>, a: nat, p: nat) {
    && (exists i | 0 <= i < |f| :: f[i].addr == p)
    && p < a && forall i | 0 <= i < |f| && f[i].addr < a :: f[i].addr <= p
  }

  lemma {:induction false} PlacePrecedes(f: seq<Blk>, a: nat)
    requires Ordered(f) && f[0].addr < a
    ensures Precedes(f, a, f[PosOf(f, a)].addr)
  {
    hide PosOf;
    var j := PosOf(f, a);
    forall i | 0 <= i < |f| && f[i].addr < a
      ensures f[i].addr <= f[j].addr
    {
      if i < j {
        Increasing(f, i, j);
      } else if j + 1 <= i {
        Increasing(f, j + 1, i);
      }
    }
  }

  class Heap {
    const base: nat
    var ptr: map<nat, nat>
    var size: map<nat, nat>
    var freep: nat
    ghost var free: seq<Blk>
    ghost var live: seq<Blk>
    ghost var got: set<nat>
    ghost var brk: nat

    /** Static storage: no list yet. */
    constructor (base: nat)
      requires base > 0
      ensures Valid() && this.base == base && live == [] && got == {} && freep == 0 && brk == base + UNIT
    {
      this.base, ptr, size, freep := base, map[], map[], 0;
      free, live, got, brk := [], [], {}, base + UNIT;
    }

    /** The list is a ring in memory through some header freep points to. */
    ghost predicate Linked()
      reads this
    {
      && Ordered(free) && free[0].addr == base && Ring(ptr, size, free)
      && exists k | 0 <= k < |free| :: free[k].addr == freep
    }

    ghost predicate LiveOK()
      reads this
    {
      LiveBlocks(size, free, live, got, brk)
    }

    /** Free and live blocks lie in the memory obtained and account for every unit of it. */
    ghost predicate Valid()
      reads this
    {
      && base > 0 && base + UNIT <= brk
      && (freep == 0 ==> free == [] && live == [] && got == {})
      && (freep != 0 ==> Linked() && LiveOK())
      && (forall i | 0 <= i < |free| :: free[i].End() <= brk)
      && Within(free, got) && (forall a | a in got :: a + UNIT <= brk)
      && Sum(free) + Sum(live) == |got|
    }

    /** free's search: the header after which bp belongs.  It ends although it may start anywhere. */
    method FindPlace(bp: nat) returns (p: nat, ghost j: nat)
      requires Linked() && bp in size && Apart(free, Blk(bp, size[bp]))
      ensures j == PosOf(free, bp) && free[j].addr == p && p in ptr && p in size
    {
      hide Ordered, Apart, PosOf;
      PlaceExists(free, Blk(bp, size[bp]));
      j := PosOf(free, bp);
      p := freep;
      ghost var k: nat :| k < |free| && free[k].addr == p;
      assert NodeAt(ptr, size, free, k);
      while !(bp > p && bp < ptr[p])
        invariant k < |free| && free[k].addr == p && NodeAt(ptr, size, free, k)
        decreases if k <= j then j - k else j + |free| - k
      {
        StopIff(free, Blk(bp, size[bp]), k);
        if p >= ptr[p] && (bp > p || bp < ptr[p]) {
          break;
        }
        k := Next(k, |free|);
        p := ptr[p];
        assert NodeAt(ptr, size, free, k);
      }
      StopIff(free, Blk(bp, size[bp]), k);
    }

    /** The pointer work of free: find the place of bp and splice it in, joining neighbours. */
    method Splice(bp: nat)
      requires base > 0 && Linked() && bp in size && Apart(free, Blk(bp, size[bp]))
      modifies this`ptr, this`size, this`freep, this`free
      ensures free == Insert(old(free), Blk(bp, old(size[bp]))) && Linked() && freep != 0
      ensures Precedes(old(free), bp, freep)
      ensures SizesKept(old(size), size, old(free), bp)
    {
      ghost var f, b := free, Blk(bp, size[bp]);
      var p: nat;
      ghost var j;
      p, j := FindPlace(bp);
      PlaceExists(f, b);
      InsertOrdered(f, b);
      NextLinked(ptr, size, f, b);
      Increasing(f, 0, j);
      hide PosOf, Apart, Ordered, Insert, Ring;
      if bp + UNIT * size[bp] == ptr[p] {
        size := size[bp := size[bp] + size[ptr[p]]];
        ptr := ptr[bp := ptr[ptr[p]]];
      } else {
        ptr := ptr[bp := ptr[p]];
      }
      if p + UNIT * size[p] == bp {
        size := size[p := size[p] + size[bp]];
        ptr := ptr[p := ptr[bp]];
      } else {
        ptr := ptr[p := bp];
      }
      SpliceRing(old(ptr), old(size), f, b, ptr, size);
      PlacePrecedes(f, bp);
      freep := p;
      free := Insert(f, b);
    }

    /** Gives back the block at ap.  Which block that is comes back as its index in `live`. */
    method Free(ap: nat) returns (ghost i: nat)
      requires Valid() && freep != 0
      requires exists k | 0 <= k < |live| :: live[k].addr + UNIT == ap
      modifies this`ptr, this`size, this`freep, this`free, this`live
      ensures Valid() && freep != 0
      ensures i < |old(live)| && old(live)[i].addr + UNIT == ap
      ensures live == old(live)[..i] + old(live)[i + 1..]
      ensures free == Insert(old(free), old(live)[i]) && Precedes(old(free), ap - UNIT, freep)
    {
      hide Insert, Ordered, Ring, Within, Sum, Apart, BlockWithin, SizesKept, LiveBlocks;
      i :| i < |live| && live[i].addr + UNIT == ap;
      ghost var b, f, l := live[i], free, live;
      LiveOne(size, f, l, got, brk, i);
      PlaceExists(f, b);
      InsertSum(f, b);
      InsertEnds(f, b, brk);
      InsertWithin(f, b, got);
      SumRemove(l, i);
      Splice(ap - UNIT);
      LiveAfterFree(old(size), size, f, l, got, brk, i);
      live := l[..i] + l[i + 1..];
    }

    /** Obtains memory from sbrk and frees it into the list; `sbrk` is what the call would return. */
    method Morecore(nu: nat, sbrk: Option<nat>) returns (ok: bool)
      requires Valid() && freep != 0 && SbrkArg(nu) >= UNIT * nu > 0
      requires sbrk.Some? ==> brk <= sbrk.value
      modifies this
      ensures ok <==> sbrk.Some?
      ensures !ok ==> unchanged(this)
      ensures Valid() && freep != 0 && live == old(live)
      ensures ok ==> Fits(free, nu) && Precedes(old(free), sbrk.value, freep)
      ensures ok ==> got == old(got) + UnitsFrom(sbrk.value, SbrkArg(nu) / UNIT)
      ensures ok ==> GrownBy(old(free), sbrk.value, SbrkArg(nu) / UNIT, free)
    {
      hide SbrkArg, UnitsFrom, Precedes, Insert, Ordered, Ring, Within, Sum, Apart, BlockWithin, SizesKept, LiveBlocks, Fits;
      var n := if nu < MINUNITS then MINUNITS else nu;
      ArgIs(nu);
      assert SbrkArg(nu) / UNIT == n;
      if sbrk.None? {
        return false;
      }
      var hp := sbrk.value;
      ghost var f, size0, b := free, size, Blk(hp, n);
      size := size[hp := n];
      got := got + UnitsFrom(hp, n);
      brk := hp + UNIT * n;
      NewChunk(f, live, size0, ptr, old(got), old(brk), hp, n);
      Splice(hp);
      InsertSum(f, b);
      InsertEnds(f, b, brk);
      InsertWithin(f, b, got);
      InsertFits(f, b);
      FitsLess(free, n, nu);
      LiveAfterGrow(size0[hp := n], size, f, live, got, brk, b);
      ok := true;
    }

    /** Takes n units from header t: the whole block, or its tail with a header of its own. */
    method Carve(prevp: nat, p0: nat, n: nat, ghost t: nat) returns (p: nat)
      requires Valid() && freep != 0 && 0 < n && t < |free| && free[t].addr == p0 && n <= free[t].units
      requires t > 0 ==> free[t - 1].addr == prevp
      modifies this`ptr, this`size, this`freep, this`free, this`live
      ensures Valid() && freep == prevp != 0
      ensures Blk(p, n) == Carved(old(free)[t], n) && free == Rest(old(free), t, n) && live == old(live) + [Blk(p, n)]
    {
      hide Ordered, Ring, Within, Sum, Apart, BlockWithin, LiveBlocks;
      ghost var f, l, size0 := free, live, size;
      p := p0;
      PositiveIndex(f, t);
      SizeOf(ptr, size, f, t);
      SizeOf(ptr, size, f, t - 1);
      CarvedRing(ptr, size, f, t, n);
      BaseLowest(f, t - 1);
      RestSum(f, t, n);
      RestFacts(f, t, n, brk, got);
      SumSnoc(l, Carved(f[t], n));
      LiveAfterCarve(size0, f, l, got, brk, t, n);
      if size[p] == n {
        ptr := ptr[prevp := ptr[p]];
        assert size == size[p := n];
      } else {
        size := size[p := size[p] - n];
        p := p + UNIT * size[p];
        size := size[p := n];
      }
      freep := prevp;
      free := Rest(f, t, n);
      live := l + [Blk(p, n)];
      assert free[t - 1] == f[t - 1];
    }

    /** malloc's first call: a ring of the static header alone. */
    method Start()
      requires Valid() && freep == 0
      modifies this`ptr, this`size, this`freep, this`free
      ensures Valid() && freep == base && free == [Blk(base, 0)]
      ensures forall n: nat | n > 0 :: !Fits(old(free), n) && !Fits(free, n)
    {
      freep := base;
      ptr, size := ptr[base := base], size[base := 0];
      free := [Blk(base, 0)];
      FirstRing(base, ptr, size, got, brk);
    }

    /** malloc's search: once round the ring from freep, then, after sbrk, round again to the block
        that was obtained, wherever it was joined in. */
    method FindFit(nunits: nat, sbrk: Option<nat>) returns (found: bool, prevp: nat, p: nat, ghost k: nat)
      requires Valid() && freep != 0 && 0 < nunits && SbrkArg(nunits) >= UNIT * nunits
      requires sbrk.Some? ==> brk <= sbrk.value
      modifies this
      ensures Valid() && freep != 0 && live == old(live)
      ensures found <==> sbrk.Some? || Fits(old(free), nunits)
      ensures Fits(old(free), nunits) || sbrk.None? ==>
        got == old(got) && free == old(free) && freep == old(freep)
      ensures !Fits(old(free), nunits) && sbrk.Some? ==>
        && GrownBy(old(free), sbrk.value, SbrkArg(nunits) / UNIT, free) && Precedes(old(free), sbrk.value, freep)
        && got == old(got) + UnitsFrom(sbrk.value, SbrkArg(nunits) / UNIT)
      ensures found ==> FirstFit(free, freep, k, nunits)
      ensures found ==> 0 < k < |free| && free[k].addr == p && nunits <= free[k].units && free[k - 1].addr == prevp
    {
      hide Ordered, Ring, Within, Sum, LiveBlocks, SbrkArg, Fits, NoneBefore, Lap, FirstFit, GrownBy, Precedes, UnitsFrom;
      prevp := freep;
      ghost var f, fi: nat := free, 0;
      fi :| fi < |free| && free[fi].addr == freep;
      ghost var q: nat, grown := fi, false;
      SizeOf(ptr, size, free, fi);
      p := ptr[prevp];
      k := Next(fi, |free|);
      NextNode(free, fi, fi, nunits);
      while true
        invariant Valid() && freep != 0 && live == old(live)
        invariant fi < |free| && free[fi].addr == freep && q < |free| && free[q].addr == prevp
        invariant k == Next(q, |free|) && free[k].addr == p
        invariant NoneBefore(free, fi, k, nunits)
        invariant !grown ==> free == f && got == old(got) && brk == old(brk) && freep == old(freep)
        invariant grown ==> sbrk.Some? && Fits(free, nunits) && !Fits(f, nunits)
        invariant grown ==>
          && GrownBy(f, sbrk.value, SbrkArg(nunits) / UNIT, free) && Precedes(f, sbrk.value, freep)
          && got == old(got) + UnitsFrom(sbrk.value, SbrkArg(nunits) / UNIT)
        decreases if grown then 0 else 1, |free| - Lap(fi, k, |free|)
      {
        SizeOf(ptr, size, free, k);
        LapRange(fi, k, |free|);
        if size[p] >= nunits {
          FitHere(free, k, nunits);
          FirstHere(free, freep, fi, k, nunits);
          PositiveIndex(free, k);
          return true, prevp, p, k;
        }
        if p == freep {
          SameAddr(free, fi, k);
          LapDone(free, fi, nunits);
          assert !grown;
          var ok := Morecore(nunits, sbrk);
          if !ok {
            return false, prevp, p, k;
          }
          p := freep;
          fi :| fi < |free| && free[fi].addr == freep;
          k, grown := fi, true;
          SizeOf(ptr, size, free, k);
        }
        NextNode(free, fi, k, nunits);
        prevp, q := p, k;
        p, k := ptr[p], Next(k, |free|);
      }
    }

    /** A block of Units(nbytes) units: carved from the first free block from freep on that is large
        enough, or from memory got from sbrk when none is.  `sbrk` is what a call of sbrk would
        return; it is used at most once. */
    method Malloc(nbytes: nat, sbrk: Option<nat>) returns (r: Option<nat>)
      requires Valid() && nbytes < 0x1_0000_0000 && SbrkArg(Units(nbytes)) >= UNIT * Units(nbytes)
      requires sbrk.Some? ==> brk <= sbrk.value
      modifies this
      ensures Valid()
      ensures r.None? <==> sbrk.None? && !Fits(old(free), Units(nbytes))
      ensures r.None? ==> live == old(live) && got == old(got)
      ensures r.Some? ==> r.value >= UNIT && live == old(live) + [Blk(r.value - UNIT, Units(nbytes))]
      ensures Fits(old(free), Units(nbytes)) ==>
        got == old(got) && FromFirstFit(old(free), old(freep), Units(nbytes), r, free, freep)
      ensures !Fits(old(free), Units(nbytes)) && sbrk.Some? ==>
        FromMore(old(if freep == 0 then [Blk(base, 0)] else free), Units(nbytes), sbrk.value, r, free, freep)
        && got == old(got) + UnitsFrom(sbrk.value, SbrkArg(Units(nbytes)) / UNIT)
      ensures UNIT * (Units(nbytes) - 1) >= nbytes <==> nbytes <= 0xFFFF_FFF8
    {
      var nunits := Units(nbytes);
      EnoughIff(nbytes);
      hide Ordered, Ring, Within, Sum, Units, LiveBlocks, SbrkArg, Fits, FromFirstFit, FromMore, UnitsFrom;
      if freep == 0 {
        Start();
      }
      r := Allot(nunits, sbrk);
    }

    /** The search and the carving, for a number of units. */
    method Allot(nunits: nat, sbrk: Option<nat>) returns (r: Option<nat>)
      requires Valid() && freep != 0 && 0 < nunits && SbrkArg(nunits) >= UNIT * nunits
      requires sbrk.Some? ==> brk <= sbrk.value
      modifies this
      ensures Valid()
      ensures r.None? <==> sbrk.None? && !Fits(old(free), nunits)
      ensures r.None? ==> live == old(live) && got == old(got)
      ensures r.Some? ==> r.value >= UNIT && live == old(live) + [Blk(r.value - UNIT, nunits)]
      ensures Fits(old(free), nunits) ==>
        got == old(got) && FromFirstFit(old(free), old(freep), nunits, r, free, freep)
      ensures !Fits(old(free), nunits) && sbrk.Some? ==>
        FromMore(old(free), nunits, sbrk.value, r, free, freep)
        && got == old(got) + UnitsFrom(sbrk.value, SbrkArg(nunits) / UNIT)
    {
      hide Ordered, Ring, Within, Sum, LiveBlocks, SbrkArg, Fits, Rest, FirstFit, Carved, FromFirstFit, FromMore, GrownBy,
           Precedes, UnitsFrom;
      ghost var k;
      var found, prevp, p;
      found, prevp, p, k := FindFit(nunits, sbrk);
      if !found {
        return None;
      }
      ghost var f, at := free, freep;
      p := Carve(prevp, p, nunits, k);
      r := Some(p + UNIT);
      Taken(f, at, k, nunits, r, free, freep);
      if !Fits(old(free), nunits) {
        TakenMore(old(free), sbrk.value, nunits, f, at, r, free, freep);
      }
    }
  }

  lemma {:induction false} EnoughIff(nbytes: nat)
    requires nbytes < 0x1_0000_0000
    ensures UNIT * (Units(nbytes) - 1) >= nbytes <==> nbytes <= 0xFFFF_FFF8
    ensures UNIT * (Units(nbytes) - 2) < nbytes
  {
    var m := nbytes + UNIT - 1;
    assert m % 0x1_0000_0000 == if m < 0x1_0000_0000 then m else m - 0x1_0000_0000;
  }

  /** How far header k is ahead of header fi, the first being 0 and fi itself the last. */
  function Lap(fi: nat, k: nat, n: nat): (d: int) {
    if k > fi then k - fi - 1 else k + n - fi - 1
  }

  lemma {:induction false} LapRange(fi: nat, k: nat, n: nat)
    requires fi < n && k < n
    ensures 0 <= Lap(fi, k, n) < n
  {
  }

  /** The headers passed since freep are all too small. */
  ghost predicate NoneBefore(f: seq<Blk>, fi: nat, k: nat, n: nat) {
    forall i | 0 <= i < |f| && Lap(fi, i, |f|) < Lap(fi, k, |f|) :: f[i].units < n
  }

  /** Header k is the first one after freep that is large enough. */
  ghost predicate FirstFit(f: seq<Blk>, freep: nat, k: nat, n: nat) {
    && k < |f| && n <= f[k].units
    && exists fi | 0 <= fi < |f| && f[fi].addr == freep :: NoneBefore(f, fi, k, n)
  }

  lemma {:induction false} FirstHere(f: seq<Blk>, freep: nat, fi: nat, k: nat, n: nat)
    requires fi < |f| && f[fi].addr == freep && k < |f| && n <= f[k].units && NoneBefore(f, fi, k, n)
    ensures FirstFit(f, freep, k, n)
  {
  }

  /** The tail of the first fit was handed out, its header aside, the rest of the ring is left, and the
      next search starts there. */
  ghost predicate FromFirstFit(f: seq<Blk>, freep: nat, n: nat, r: Option<nat>, f': seq<Blk>, freep': nat) {
    exists k: nat :: 0 < k && FirstFit(f, freep, k, n) && r == Some(f[k].End() - UNIT * n + UNIT)
      && freep' == f[k - 1].addr
      && f' == if f[k].units == n then f[..k] + f[k + 1..] else f[k := Blk(f[k].addr, f[k].units - n)]
  }

  /** The units obtained at address a were freed into the list, and the block handed out is the tail of
      the first fit after their predecessor. */
  ghost predicate FromMore(f: seq<Blk>, n: nat, a: nat, r: Option<nat>, f': seq<Blk>, freep': nat)
    requires SbrkArg(n) >= 0
  {
    exists g, p: nat ::
      GrownBy(f, a, SbrkArg(n) / UNIT, g) && Precedes(f, a, p) && FromFirstFit(g, p, n, r, f', freep')
  }

  lemma {:induction false} TakenMore(f: seq<Blk>, a: nat, n: nat, g: seq<Blk>, p: nat, r: Option<nat>, f': seq<Blk>,
                                     freep': nat)
    requires SbrkArg(n) >= 0 && GrownBy(f, a, SbrkArg(n) / UNIT, g) && Precedes(f, a, p)
    requires FromFirstFit(g, p, n, r, f', freep')
    ensures FromMore(f, n, a, r, f', freep')
  {
  }

  lemma {:induction false} Taken(f: seq<Blk>, freep: nat, k: nat, n: nat, r: Option<nat>, f': seq<Blk>,
                                 freep': nat)
    requires 0 < k && FirstFit(f, freep, k, n) && r == Some(Carved(f[k], n).addr + UNIT) && f' == Rest(f, k, n) && freep' == f[k - 1].addr
    ensures FromFirstFit(f, freep, n, r, f', freep')
  {
  }

  lemma {:induction false} NextNode(f: seq<Blk>, fi: nat, k: nat, n: nat)
    requires fi < |f| && k < |f|
    requires k == fi || (NoneBefore(f, fi, k, n) && f[k].units < n)
    ensures NoneBefore(f, fi, Next(k, |f|), n)
    ensures k != fi ==> Lap(fi, Next(k, |f|), |f|) == Lap(fi, k, |f|) + 1
    ensures 0 <= Lap(fi, k, |f|) < |f|
  {
  }

  /** A whole lap without a fit. */
  lemma {:induction false} LapDone(f: seq<Blk>, fi: nat, n: nat)
    requires fi < |f| && NoneBefore(f, fi, fi, n) && f[fi].units < n
    ensures !Fits(f, n)
  {
  }

  lemma {:induction false} FitHere(f: seq<Blk>, k: nat, n: nat)
    requires k < |f| && f[k].units >= n
    ensures Fits(f, n)
  {
  }

  lemma {:induction false} SameAddr(f: seq<Blk>, i: nat, j: nat)
    requires Ordered(f) && i < |f| && j < |f| && f[i].addr == f[j].addr
    ensures i == j
  {
    Increasing(f, if i < j then i else j, if i < j then j else i);
  }

  lemma {:induction false} BaseLowest(f: seq<Blk>, i: nat)
    requires Ordered(f) && i < |f|
    ensures f[0].addr <= f[i].addr
  {
    Increasing(f, 0, i);
  }

  lemma {:induction false} PositiveIndex(f: seq<Blk>, t: nat)
    requires Ordered(f) && t < |f| && f[t].units > 0
    ensures t > 0
  {
  }

  lemma {:induction false} FirstRing(base: nat, ptr: map<nat, nat>, size: map<nat, nat>, got: set<nat>, brk: nat)
    requires base in ptr && ptr[base] == base && base in size && size[base] == 0
    ensures var f := [Blk(base, 0)];
            && Ordered(f) && Ring(ptr, size, f) && Within(f, got) && Sum(f) == 0 && f[0].addr == base
            && LiveBlocks(size, f, [], got, brk)
  {
    var f := [Blk(base, 0)];
    assert NodeAt(ptr, size, f, 0);
  }

  lemma {:induction false} SumSnoc(l: seq<Blk>, b: Blk)
    ensures Sum(l + [b]) == Sum(l) + b.units
  {
    SumConcat(l, [b]);
  }

  lemma {:induction false} RestFacts(f: seq<Blk>, t: nat, n: nat, brk: nat, got: set<nat>)
    requires Ordered(f) && 0 < t < |f| && 0 < n <= f[t].units && Within(f, got)
    requires forall i | 0 <= i < |f| :: f[i].End() <= brk
    ensures Ordered(Rest(f, t, n)) && Rest(f, t, n)[0] == f[0] && Within(Rest(f, t, n), got)
    ensures forall i | 0 <= i < |Rest(f, t, n)| :: Rest(f, t, n)[i].End() <= brk
    ensures t - 1 < |Rest(f, t, n)| && Rest(f, t, n)[t - 1] == f[t - 1]
  {
    RestOrdered(f, t, n);
    CarveWithin(f, t, n, got);
  }

  /** malloc's assignments turn the ring of f into the ring of what is left. */
  lemma {:induction false} CarvedRing(ptr: map<nat, nat>, size: map<nat, nat>, f: seq<Blk>, t: nat, n: nat)
    requires Ordered(f) && Ring(ptr, size, f) && 0 < t < |f| && 0 < n <= f[t].units
    requires f[t].addr in ptr && f[t].addr in size
    ensures f[t].units == n ==> Ring(ptr[f[t - 1].addr := ptr[f[t].addr]], size, Rest(f, t, n))
    ensures f[t].units > n ==>
              Ring(ptr, size[f[t].addr := f[t].units - n][Carved(f[t], n).addr := n], Rest(f, t, n))
  {
    hide Sorted, GapAt, Ring;
    if f[t].units == n {
      RingDrop(ptr, size, f, t);
    } else {
      forall i | 0 <= i < |f| && i != t ensures f[i].addr != f[t].addr {
        Increasing(f, if i < t then i else t, if i < t then t else i);
      }
      RingShrink(ptr, size, f, t, f[t].units - n);
      RestOrdered(f, t, n);
      RestApart(f, t, n);
      AddrsApart(Rest(f, t, n), Carved(f[t], n));
      RingOther(ptr, size[f[t].addr := f[t].units - n], Rest(f, t, n), Carved(f[t], n).addr, n);
    }
  }

  lemma {:induction false} RingOther(ptr: map<nat, nat>, size: map<nat, nat>, f: seq<Blk>, a: nat, n: nat)
    requires Ring(ptr, size, f) && forall i | 0 <= i < |f| :: f[i].addr != a
    ensures Ring(ptr, size[a := n], f)
  {
    var size' := size[a := n];
    forall i | 0 <= i < |f| ensures NodeAt(ptr, size', f, i) {
      assert NodeAt(ptr, size, f, i);
    }
  }

  lemma {:induction false} LiveAfterCarve(size: map<nat, nat>, f: seq<Blk>, live: seq<Blk>, got: set<nat>,
        brk: nat, t: nat, n: nat)
    requires Ordered(f) && 0 < t < |f| && 0 < n <= f[t].units && Within(f, got) && LiveBlocks(size, f, live, got, brk)
    requires f[t].End() <= brk
    ensures var c := Carved(f[t], n);
            var size' := if f[t].units == n then size[f[t].addr := n] else size[f[t].addr := f[t].units - n][c.addr := n];
            LiveBlocks(size', Rest(f, t, n), live + [c], got, brk)
  {
    hide Ordered, Within, BlockWithin, Rest;
    var c := Carved(f[t], n);
    var size' := if f[t].units == n then size[f[t].addr := n] else size[f[t].addr := f[t].units - n][c.addr := n];
    var l := live + [c];
    RestApart(f, t, n);
    CarveWithin(f, t, n, got);
    forall k | 0 <= k < |live| ensures Disjoint(c, live[k]) && LiveBlock(size', Rest(f, t, n), live[k], got, brk) {
      assert LiveBlock(size, f, live[k], got, brk);
      CarveApart(f, t, n, live[k]);
      AddrsApart(f, live[k]);
    }
    forall k | 0 <= k < |l| ensures LiveBlock(size', Rest(f, t, n), l[k], got, brk) {
      if k < |live| {
        assert l[k] == live[k];
      }
    }
  }

  lemma {:induction false} FitsLess(f: seq<Blk>, n: nat, m: nat)
    requires Fits(f, n) && m <= n
    ensures Fits(f, m)
  {
  }

  /** Memory from above everything obtained so far is apart from all blocks and all new. */
  lemma {:induction false} NewChunk(f: seq<Blk>, live: seq<Blk>, size: map<nat, nat>, ptr: map<nat, nat>,
                                    got: set<nat>, brk: nat,
                                    hp: nat, n: nat)
    requires Ordered(f) && Ring(ptr, size, f) && LiveBlocks(size, f, live, got, brk) && Within(f, got)
    requires f[0].addr + UNIT <= brk <= hp && n > 0
    requires forall i | 0 <= i < |f| :: f[i].End() <= brk
    requires forall a | a in got :: a + UNIT <= brk
    ensures Apart(f, Blk(hp, n)) && Ring(ptr, size[hp := n], f)
    ensures LiveBlocks(size[hp := n], f, live, got + UnitsFrom(hp, n), hp + UNIT * n)
    ensures forall k | 0 <= k < |live| :: Disjoint(live[k], Blk(hp, n))
    ensures |got + UnitsFrom(hp, n)| == |got| + n
    ensures Within(f, got + UnitsFrom(hp, n)) && BlockWithin(Blk(hp, n), got + UnitsFrom(hp, n))
    ensures forall a | a in got + UnitsFrom(hp, n) :: a + UNIT <= hp + UNIT * n
  {
    UnitsCount(hp, n);
    assert got !! UnitsFrom(hp, n);
    var size' := size[hp := n];
    forall i | 0 <= i < |f| ensures NodeAt(ptr, size', f, i) {
      assert NodeAt(ptr, size, f, i);
    }
    forall k | 0 <= k < |live| ensures LiveBlock(size[hp := n], f, live[k], got + UnitsFrom(hp, n), hp + UNIT * n) {
      assert LiveBlock(size, f, live[k], got, brk);
    }
  }

  lemma {:induction false} LiveAfterGrow(size: map<nat, nat>, size': map<nat, nat>, f: seq<Blk>, live: seq<Blk>,
        got: set<nat>, brk: nat,
                                         b: Blk)
    requires Ordered(f) && Apart(f, b) && LiveBlocks(size, f, live, got, brk) && SizesKept(size, size', f, b.addr)
    requires forall k | 0 <= k < |live| :: Disjoint(live[k], b)
    requires f[0].addr < b.addr
    ensures LiveBlocks(size', Insert(f, b), live, got, brk)
  {
    hide Insert, Ordered, BlockWithin;
    forall k | 0 <= k < |live| ensures LiveBlock(size', Insert(f, b), live[k], got, brk) {
      assert LiveBlock(size, f, live[k], got, brk);
      InsertApart(f, b, live[k]);
      AddrsApart(f, live[k]);
    }
  }

  lemma {:induction false} LiveOne(size: map<nat, nat>, f: seq<Blk>, live: seq<Blk>, got: set<nat>, brk: nat, i: nat)
    requires LiveBlocks(size, f, live, got, brk) && i < |live|
    ensures live[i].addr in size && size[live[i].addr] == live[i].units
    ensures Apart(f, live[i]) && live[i].End() <= brk && BlockWithin(live[i], got)
  {
    assert LiveBlock(size, f, live[i], got, brk);
  }

  lemma {:induction false} SumRemove(l: seq<Blk>, i: nat)
    requires i < |l|
    ensures Sum(l[..i] + l[i + 1..]) + l[i].units == Sum(l)
  {
    SumConcat(l[..i], [l[i]] + l[i + 1..]);
    SumConcat(l[..i], l[i + 1..]);
    SumConcat([l[i]], l[i + 1..]);
    assert l == l[..i] + ([l[i]] + l[i + 1..]);
  }

  /** free's loop test, at header p with successor q. */
  predicate Stop(bp: nat, p: nat, q: nat) {
    (bp > p && bp < q) || (p >= q && (bp > p || bp < q))
  }

  lemma {:induction false} PlaceExists(f: seq<Blk>, b: Blk)
    requires Apart(f, b)
    ensures f != [] && f[0].addr < b.addr
  {
  }

  /** The loop stops at the block's place and nowhere else. */
  lemma {:induction false} StopIff(f: seq<Blk>, b: Blk, k: nat)
    requires Ordered(f) && Apart(f, b) && k < |f|
    ensures f[0].addr < b.addr
    ensures Stop(b.addr, f[k].addr, f[Next(k, |f|)].addr) <==> k == PosOf(f, b.addr)
  {
    Around(f, b);
    if k + 1 < |f| {
      Increasing(f, k, k + 1);
      if f[k].addr < b.addr <= f[k + 1].addr {
        PosUnique(f, b.addr, k);
      }
    } else {
      Increasing(f, 0, k);
      if f[k].addr < b.addr {
        PosUnique(f, b.addr, k);
      }
    }
  }

  lemma {:induction false} NextLinked(ptr: map<nat, nat>, size: map<nat, nat>, f: seq<Blk>, b: Blk)
    requires Ordered(f) && Apart(f, b) && Ring(ptr, size, f) && f[0].addr < b.addr
    ensures var p := f[PosOf(f, b.addr)].addr;
            p in ptr && p in size && ptr[p] in ptr && ptr[p] in size && p != b.addr
            && (b.End() == ptr[p] ==> ptr[p] != b.addr)
  {
    var j := PosOf(f, b.addr);
    assert NodeAt(ptr, size, f, j) && NodeAt(ptr, size, f, Next(j, |f|));
  }

  /** The four assignments of free, taken together, turn the ring of f into the ring of f with b
      inserted. */
  lemma {:induction false} SpliceRing(ptr: map<nat, nat>, size: map<nat, nat>, f: seq<Blk>, b: Blk,
                                      ptr': map<nat, nat>, size': map<nat, nat>)
    requires Ordered(f) && Apart(f, b) && Ring(ptr, size, f) && b.addr in size && size[b.addr] == b.units
    requires f[0].addr < b.addr
    requires var p := f[PosOf(f, b.addr)].addr;
             && p in ptr && p in size && ptr[p] in ptr && ptr[p] in size
             && var up, down := b.End() == ptr[p], p + UNIT * size[p] == b.addr;
                var nextp := if up then ptr[ptr[p]] else ptr[p];
                var units := if up then b.units + size[ptr[p]] else b.units;
                && ptr' == ptr[b.addr := nextp][p := if down then nextp else b.addr]
                && size' == if down then size[b.addr := units][p := size[p] + units] else size[b.addr := units]
    ensures Ring(ptr', size', Insert(f, b))
    ensures exists k | 0 <= k < |Insert(f, b)| :: Insert(f, b)[k].addr == f[PosOf(f, b.addr)].addr
  {
    hide PosOf, Sorted, Apart, Ring;
    var j := PosOf(f, b.addr);
    var p := f[j].addr;
    var up := b.End() == ptr[p];
    var nextp, units := if up then ptr[ptr[p]] else ptr[p], if up then b.units + size[ptr[p]] else b.units;
    NextLinked(ptr, size, f, b);
    SpliceUp(ptr, size, f, b, nextp, units);
    var h := Join(Put(f, b, j), j + 1);
    var ptr1, size1 := ptr[b.addr := nextp][p := b.addr], size[b.addr := units];
    SizeOf(ptr, size, f, j);
    if f[j].End() == b.addr {
      RingJoin(ptr1, size1, h, j);
      assert ptr1[p := ptr1[b.addr]] == ptr';
      assert size1[p := h[j].units + h[j + 1].units] == size';
    }
    assert Insert(f, b)[j].addr == p;
  }

  lemma {:induction false} SizeOf(ptr: map<nat, nat>, size: map<nat, nat>, f: seq<Blk>, i: nat)
    requires Ring(ptr, size, f) && i < |f|
    ensures f[i].addr in size && size[f[i].addr] == f[i].units
    ensures f[i].addr in ptr && ptr[f[i].addr] == f[Next(i, |f|)].addr
  {
    assert NodeAt(ptr, size, f, i);
  }

  /** The first half: b linked in after its place and joined with the block above. */
  lemma {:induction false} SpliceUp(ptr: map<nat, nat>, size: map<nat, nat>, f: seq<Blk>, b: Blk, nextp: nat,
                                    units: nat)
    requires Ordered(f) && Apart(f, b) && Ring(ptr, size, f) && b.addr in size && size[b.addr] == b.units
    requires f[0].addr < b.addr
    requires var p := f[PosOf(f, b.addr)].addr;
             && p in ptr && ptr[p] in ptr && ptr[p] in size
             && nextp == (if b.End() == ptr[p] then ptr[ptr[p]] else ptr[p])
             && units == if b.End() == ptr[p] then b.units + size[ptr[p]] else b.units
    ensures var j := PosOf(f, b.addr);
            var h := Join(Put(f, b, j), j + 1);
            && Sorted(h) && j + 1 < |h| && h[j] == f[j] && h[j + 1] == Blk(b.addr, units)
            && Ring(ptr[b.addr := nextp][f[j].addr := b.addr], size[b.addr := units], h)
  {
    hide PosOf, Sorted, Apart, Ring;
    var j := PosOf(f, b.addr);
    var p := f[j].addr;
    var g := Put(f, b, j);
    AddrsApart(f, b);
    PutSorted(f, b);
    JoinSorted(g, j + 1);
    RingPut(ptr, size, f, b, j);
    var ptr1 := ptr[b.addr := ptr[p]][p := b.addr];
    SizeOf(ptr, size, f, j);
    UpIff(f, b);
    if b.End() == ptr[p] {
      SizeOf(ptr, size, f, j + 1);
      RingJoin(ptr1, size, g, j + 1);
      assert ptr1[b.addr := ptr1[g[j + 2].addr]] == ptr[b.addr := nextp][p := b.addr];
    } else {
      assert size[b.addr := units] == size;
    }
  }

  /** b touches the header after its place just when that header is the next block of the list. */
  lemma {:induction false} UpIff(f: seq<Blk>, b: Blk)
    requires Ordered(f) && Apart(f, b) && f[0].addr < b.addr
    ensures var j := PosOf(f, b.addr);
            b.End() == f[Next(j, |f|)].addr <==> j + 1 < |f| && b.End() == f[j + 1].addr
  {
  }

  lemma {:induction false} AddrsApart(f: seq<Blk>, b: Blk)
    requires Ordered(f) && Apart(f, b)
    ensures forall i | 0 <= i < |f| :: f[i].addr != b.addr
  {
    forall i | 1 <= i < |f| ensures f[i].addr != b.addr {
      assert Disjoint(f[i], b);
    }
  }

  /** The first malloc of a process: 4096 units at address a, the tail of them handed out. */
  method FirstMalloc(base: nat, nbytes: nat, a: nat) returns (h: Heap, r: Option<nat>)
    requires 0 < base && base + UNIT <= a && nbytes <= UNIT * 4095
    ensures fresh(h) && h.Valid() && r == Some(a + UNIT * (4096 - Units(nbytes)) + UNIT)
    ensures Units(nbytes) < 4096 ==> h.free == [Blk(base, 0), Blk(a, 4096 - Units(nbytes))]
  {
    hide Ordered, Ring, Within, Sum, LiveBlocks, FromFirstFit;
    h := new Heap(base);
    ghost var n := Units(nbytes);
    EnoughIff(nbytes);
    r := h.Malloc(nbytes, Some(a));
    FirstGrown(base, a, n, r, h.free, h.freep);
  }

  lemma {:induction false} FirstGrown(base: nat, a: nat, n: nat, r: Option<nat>, f': seq<Blk>, freep': nat)
    requires base + UNIT <= a && 0 < n <= 4096 && SbrkArg(n) == UNIT * 4096
    requires FromMore([Blk(base, 0)], n, a, r, f', freep')
    ensures r == Some(a + UNIT * (4096 - n) + UNIT)
    ensures n < 4096 ==> f' == [Blk(base, 0), Blk(a, 4096 - n)]
  {
    hide FromFirstFit, Precedes, SbrkArg, Insert;
    var f := [Blk(base, 0)];
    var g: seq<Blk>, p: nat :|
      GrownBy(f, a, SbrkArg(n) / UNIT, g) && Precedes(f, a, p) && FromFirstFit(g, p, n, r, f', freep');
    InsertFirst(base, a);
    TailOfSecond(base, a, p, n, r, f', freep');
  }

  lemma {:induction false} InsertFirst(base: nat, a: nat)
    requires base + UNIT <= a
    ensures Insert([Blk(base, 0)], Blk(a, 4096)) == [Blk(base, 0), Blk(a, 4096)]
  {
  }

  lemma {:induction false} TailOfSecond(base: nat, a: nat, p: nat, n: nat, r: Option<nat>, f': seq<Blk>, freep': nat)
    requires 0 < n <= 4096 && FromFirstFit([Blk(base, 0), Blk(a, 4096)], p, n, r, f', freep')
    ensures r == Some(a + UNIT * (4096 - n) + UNIT)
    ensures n < 4096 ==> f' == [Blk(base, 0), Blk(a, 4096 - n)]
  {
    hide NoneBefore;
    var g := [Blk(base, 0), Blk(a, 4096)];
    var k: nat :| 0 < k && FirstFit(g, p, k, n) && r == Some(g[k].End() - UNIT * n + UNIT)
      && freep' == g[k - 1].addr
      && f' == if g[k].units == n then g[..k] + g[k + 1..] else g[k := Blk(g[k].addr, g[k].units - n)];
    assert k == 1;
  }
}
