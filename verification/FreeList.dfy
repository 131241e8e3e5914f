/** The free list of umalloc.c as a value: blocks in address order, the static header `base` first.
    Insertion with coalescing and carving are defined here and their laws proved; module Umalloc
    shows that the pointer code does exactly this. */
module FreeList {

  const UNIT := 8   // sizeof(Header)

  datatype Blk = Blk(addr: nat, units: nat) {
    function End(): (e: nat) {
      addr + UNIT * units
    }
  }

  /** Block i ends at or below its successor. */
  ghost predicate Below(f: seq<Blk>, i: nat) {
    i + 1 < |f| ==> f[i].End() <= f[i + 1].addr && f[i].addr + UNIT <= f[i + 1].addr
  }

  /** A gap after block i, so that it could not have been joined with the next. */
  ghost predicate GapAt(f: seq<Blk>, i: nat) {
    i + 1 < |f| ==> f[i].End() < f[i + 1].addr
  }

  /** Address order without overlap: base, which has no units, then real blocks. */
  ghost predicate Sorted(f: seq<Blk>) {
    && f != [] && f[0].units == 0
    && (forall i | 1 <= i < |f| :: f[i].units >= 1)
    && forall i | 0 <= i < |f| :: Below(f, i)
  }

  /** The free list's shape: sorted and fully coalesced. */
  ghost predicate Ordered(f: seq<Blk>) {
    Sorted(f) && forall i | 0 <= i < |f| :: GapAt(f, i)
  }

  ghost predicate Disjoint(a: Blk, b: Blk) {
    a.End() <= b.addr || b.End() <= a.addr
  }

  /** b is a real block above base that overlaps no free block. */
  ghost predicate Apart(f: seq<Blk>, b: Blk) {
    && f != [] && b.units >= 1 && f[0].addr + UNIT <= b.addr
    && forall i | 1 <= i < |f| :: Disjoint(f[i], b)
  }

  ghost function Sum(f: seq<Blk>): (n: nat) {
    if f == [] then 0 else f[0].units + Sum(f[1..])
  }

  lemma {:induction false} SumConcat(f: seq<Blk>, g: seq<Blk>)
    ensures Sum(f + g) == Sum(f) + Sum(g)
  {
    if f == [] {
      assert f + g == g;
    } else {
      assert (f + g)[1..] == f[1..] + g;
      SumConcat(f[1..], g);
    }
  }

  /** Every unit of every block came from sbrk. */
  ghost predicate Within(f: seq<Blk>, got: set<nat>) {
    forall i, k | 0 <= i < |f| && 0 <= k < f[i].units :: UnitAt(f[i], k) in got
  }

  ghost function UnitAt(b: Blk, k: nat): (a: nat) {
    b.addr + UNIT * k
  }

  ghost predicate BlockWithin(b: Blk, got: set<nat>) {
    forall k | 0 <= k < b.units :: UnitAt(b, k) in got
  }

  // ---------- insertion ----------

  /** The last block below address a. */
  function PosOf(f: seq<Blk>, a: nat): (j: nat)
    requires f != [] && f[0].addr < a
    ensures j < |f| && f[j].addr < a
    ensures j + 1 < |f| ==> f[j + 1].addr >= a
  {
    if |f| == 1 || a <= f[1].addr then 0 else 1 + PosOf(f[1..], a)
  }

  lemma {:induction false} PosUnique(f: seq<Blk>, a: nat, j: nat)
    requires Sorted(f) && f[0].addr < a && j < |f|
    requires f[j].addr < a && (j + 1 < |f| ==> a <= f[j + 1].addr)
    ensures PosOf(f, a) == j
  {
    var k := PosOf(f, a);
    if k < j {
      Increasing(f, k + 1, j);
    } else if j < k {
      Increasing(f, j + 1, k);
    }
  }

  lemma {:induction false} Increasing(f: seq<Blk>, i: nat, j: nat)
    requires Sorted(f) && i <= j < |f|
    ensures f[i].addr <= f[j].addr
    ensures i < j ==> f[i].addr + UNIT <= f[j].addr && f[i].End() <= f[j].addr
    decreases j - i
  {
    if i < j {
      Increasing(f, i, j - 1);
      assert Below(f, j - 1);
    }
  }

  ghost function Put(f: seq<Blk>, b: Blk, j: nat): (r: seq<Blk>)
    requires j < |f|
  {
    f[..j + 1] + [b] + f[j + 1..]
  }

  /** Blocks k and k + 1 as one, if they touch. */
  ghost function Join(f: seq<Blk>, k: nat): (r: seq<Blk>) {
    if k + 1 < |f| && f[k].End() == f[k + 1].addr
    then f[..k] + [Blk(f[k].addr, f[k].units + f[k + 1].units)] + f[k + 2..]
    else f
  }

  /** b in its place, joined with the block above and then with the block below if it touches. */
  ghost function Insert(f: seq<Blk>, b: Blk): (r: seq<Blk>)
    requires f != [] && f[0].addr < b.addr
  {
    var j := PosOf(f, b.addr);
    Join(Join(Put(f, b, j), j + 1), j)
  }

  /** What the neighbours of b's position satisfy. */
  lemma {:induction false} Around(f: seq<Blk>, b: Blk)
    requires Sorted(f) && Apart(f, b)
    ensures var j := PosOf(f, b.addr);
            && f[j].End() <= b.addr && f[j].addr + UNIT <= b.addr && (j == 0 ==> f[j].End() < b.addr)
            && (j + 1 < |f| ==> b.End() <= f[j + 1].addr)
  {
    var j := PosOf(f, b.addr);
    if j > 0 {
      assert Disjoint(f[j], b);
    }
    if j + 1 < |f| {
      assert Disjoint(f[j + 1], b);
    }
  }

  lemma {:induction false} PutSorted(f: seq<Blk>, b: Blk)
    requires Ordered(f) && Apart(f, b)
    ensures var j := PosOf(f, b.addr);
            && Sorted(Put(f, b, j)) && (j == 0 ==> GapAt(Put(f, b, j), 0))
            && forall i | 0 <= i < |f| + 1 && i != j && i != j + 1 :: GapAt(Put(f, b, j), i)
  {
    hide PosOf;
    Around(f, b);
    var j := PosOf(f, b.addr);
    var g := Put(f, b, j);
    forall i | 0 <= i < |g| && i != j && i != j + 1 ensures GapAt(g, i) && Below(g, i) {
      assert GapAt(f, if i < j then i else i - 1) && Below(f, if i < j then i else i - 1);
    }
  }

  lemma {:induction false} JoinSorted(f: seq<Blk>, k: nat)
    requires Sorted(f) && k < |f| && (k == 0 ==> GapAt(f, 0))
    ensures Sorted(Join(f, k)) && Join(f, k)[0] == f[0]
  {
    if k + 1 < |f| && f[k].End() == f[k + 1].addr {
      var g := Join(f, k);
      forall i | 0 <= i < |g| ensures Below(g, i) {
        JoinBelow(f, k, i);
      }
    }
  }

  lemma {:induction false} JoinBelow(f: seq<Blk>, k: nat, i: nat)
    requires Sorted(f) && k + 1 < |f| && f[k].End() == f[k + 1].addr && i < |f| - 1
    ensures Below(Join(f, k), i)
  {
    assert Below(f, i) && Below(f, i + 1) && Below(f, k);
  }

  /** After joining at k, gaps before k stay, the gap of block k + 1 becomes that of k, and gaps
      behind move one place. */
  lemma {:induction false} JoinGap(f: seq<Blk>, k: nat, i: nat)
    requires Sorted(f) && k < |f|
    requires i < k ==> GapAt(f, i)
    requires i == k ==> GapAt(f, k + 1)
    requires i > k ==> GapAt(f, i) && GapAt(f, i + 1)
    ensures GapAt(Join(f, k), i)
  {
    assert Below(f, k);
  }

  lemma {:induction false} JoinSum(f: seq<Blk>, k: nat)
    ensures Sum(Join(f, k)) == Sum(f)
  {
    if k + 1 < |f| && f[k].End() == f[k + 1].addr {
      var pair, one := [f[k]] + [f[k + 1]], [Blk(f[k].addr, f[k].units + f[k + 1].units)];
      assert f == f[..k] + (pair + f[k + 2..]);
      assert Join(f, k) == f[..k] + (one + f[k + 2..]);
      SumConcat(f[..k], pair + f[k + 2..]);
      SumConcat(pair, f[k + 2..]);
      SumConcat(f[..k], one + f[k + 2..]);
      SumConcat(one, f[k + 2..]);
    }
  }

  lemma {:induction false} PutSum(f: seq<Blk>, b: Blk, j: nat)
    requires j < |f|
    ensures Sum(Put(f, b, j)) == Sum(f) + b.units
  {
    assert Put(f, b, j) == f[..j + 1] + ([b] + f[j + 1..]);
    assert f == f[..j + 1] + f[j + 1..];
    SumConcat(f[..j + 1], f[j + 1..]);
    SumConcat(f[..j + 1], [b] + f[j + 1..]);
    SumConcat([b], f[j + 1..]);
  }

  /** Freeing keeps the list sorted and fully coalesced, with base still first. */
  lemma {:induction false} InsertOrdered(f: seq<Blk>, b: Blk)
    requires Ordered(f) && Apart(f, b)
    ensures Ordered(Insert(f, b)) && Insert(f, b)[0] == f[0]
  {
    hide PosOf, GapAt;
    PutSorted(f, b);
    var j := PosOf(f, b.addr);
    var g := Put(f, b, j);
    JoinSorted(g, j + 1);
    var h := Join(g, j + 1);
    forall i: nat | i != j ensures GapAt(h, i) {
      BeyondGap(g, i);
      BeyondGap(g, i + 1);
      JoinGap(g, j + 1, i);
    }
    if j == 0 {
      GapStays(g, h);
    }
    JoinSorted(h, j);
    forall i: nat ensures GapAt(Join(h, j), i) {
      JoinGap(h, j, i);
    }
  }

  lemma {:induction false} BeyondGap(f: seq<Blk>, i: nat)
    ensures i + 1 >= |f| ==> GapAt(f, i)
  {
  }

  lemma {:induction false} GapStays(g: seq<Blk>, h: seq<Blk>)
    requires |g| >= 2 && |h| >= 2 && g[0] == h[0] && g[1].addr == h[1].addr && GapAt(g, 0)
    ensures GapAt(h, 0)
  {
  }

  /** Freeing adds exactly the block's units. */
  lemma {:induction false} InsertSum(f: seq<Blk>, b: Blk)
    requires f != [] && f[0].addr < b.addr
    ensures Sum(Insert(f, b)) == Sum(f) + b.units
  {
    hide Sum, Put, Join;
    var j := PosOf(f, b.addr);
    PutSum(f, b, j);
    JoinSum(Put(f, b, j), j + 1);
    JoinSum(Join(Put(f, b, j), j + 1), j);
  }

  lemma {:induction false} PutApart(f: seq<Blk>, b: Blk, j: nat, c: Blk)
    requires Apart(f, c) && j < |f| && Disjoint(b, c)
    ensures Apart(Put(f, b, j), c)
  {
  }

  lemma {:induction false} JoinApart(f: seq<Blk>, k: nat, c: Blk)
    requires Apart(f, c) && k < |f| && (k == 0 ==> GapAt(f, 0))
    ensures Apart(Join(f, k), c)
  {
    if k > 0 && k + 1 < |f| {
      assert Disjoint(f[k], c) && Disjoint(f[k + 1], c);
    }
  }

  /** A block apart from the list and from b stays apart once b is freed. */
  lemma {:induction false} InsertApart(f: seq<Blk>, b: Blk, c: Blk)
    requires Ordered(f) && Apart(f, b) && Apart(f, c) && Disjoint(b, c)
    ensures Apart(Insert(f, b), c)
  {
    hide PosOf, Disjoint;
    PutSorted(f, b);
    var j := PosOf(f, b.addr);
    var g := Put(f, b, j);
    PutApart(f, b, j, c);
    JoinApart(g, j + 1, c);
    var h := Join(g, j + 1);
    if j == 0 {
      GapStays(g, h);
    }
    JoinApart(h, j, c);
  }

  lemma {:induction false} JoinWithin(f: seq<Blk>, k: nat, got: set<nat>)
    requires Within(f, got)
    ensures Within(Join(f, k), got)
  {
    if k + 1 < |f| && f[k].End() == f[k + 1].addr {
      var g := Join(f, k);
      forall i, m | 0 <= i < |g| && 0 <= m < g[i].units ensures UnitAt(g[i], m) in got {
        if i == k && m >= f[k].units {
          assert UnitAt(f[k + 1], m - f[k].units) in got;
        } else {
          assert UnitAt(f[if i <= k then i else i + 1], m) in got;
        }
      }
    }
  }

  lemma {:induction false} InsertWithin(f: seq<Blk>, b: Blk, got: set<nat>)
    requires f != [] && f[0].addr < b.addr && Within(f, got) && BlockWithin(b, got)
    ensures Within(Insert(f, b), got)
  {
    hide PosOf, Join;
    var j := PosOf(f, b.addr);
    var g := Put(f, b, j);
    forall i, m | 0 <= i < |g| && 0 <= m < g[i].units ensures UnitAt(g[i], m) in got {
      if i == j + 1 {
        assert UnitAt(b, m) in got;
      } else {
        assert UnitAt(f[if i <= j then i else i - 1], m) in got;
      }
    }
    JoinWithin(g, j + 1, got);
    JoinWithin(Join(g, j + 1), j, got);
  }

  lemma {:induction false} InsertEnds(f: seq<Blk>, b: Blk, top: nat)
    requires f != [] && f[0].addr < b.addr && b.End() <= top
    requires forall i | 0 <= i < |f| :: f[i].End() <= top
    ensures forall i | 0 <= i < |Insert(f, b)| :: Insert(f, b)[i].End() <= top
  {
    hide PosOf;
    var j := PosOf(f, b.addr);
    var g := Put(f, b, j);
    assert forall i | 0 <= i < |g| :: g[i].End() <= top;
    var h := Join(g, j + 1);
    assert forall i | 0 <= i < |h| :: h[i].End() <= top;
  }

  /** Some block has at least n units. */
  ghost predicate Fits(f: seq<Blk>, n: nat) {
    exists u | 0 <= u < |f| :: f[u].units >= n
  }

  /** After freeing b some block is at least as large as b. */
  lemma {:induction false} InsertFits(f: seq<Blk>, b: Blk)
    requires f != [] && f[0].addr < b.addr
    ensures Fits(Insert(f, b), b.units)
  {
    hide PosOf;
    var j := PosOf(f, b.addr);
    var g := Put(f, b, j);
    assert g[j + 1] == b;
    var h := Join(g, j + 1);
    assert h[j + 1].units >= b.units;
    var r := Join(h, j);
    assert r[if |r| < |h| then j else j + 1].units >= b.units;
  }

  // ---------- carving ----------

  /** The list once n units were cut from the end of block t, or block t taken whole. */
  ghost function Rest(f: seq<Blk>, t: nat, n: nat): (r: seq<Blk>)
    requires t < |f| && n <= f[t].units
  {
    if f[t].units == n then f[..t] + f[t + 1..] else f[t := Blk(f[t].addr, f[t].units - n)]
  }

  function Carved(b: Blk, n: nat): (r: Blk)
    requires n <= b.units
  {
    Blk(b.addr + UNIT * (b.units - n), n)
  }

  lemma {:induction false} RestOrdered(f: seq<Blk>, t: nat, n: nat)
    requires Ordered(f) && 0 < t < |f| && 0 < n <= f[t].units
    ensures Ordered(Rest(f, t, n)) && Rest(f, t, n)[0] == f[0]
  {
    var r := Rest(f, t, n);
    forall i | 0 <= i < |r| ensures Below(r, i) && GapAt(r, i) {
      assert Below(f, i) && GapAt(f, i);
      if f[t].units == n && i >= t - 1 && i + 1 < |f| {
        assert Below(f, i + 1) && GapAt(f, i + 1);
      }
    }
  }

  lemma {:induction false} RestSum(f: seq<Blk>, t: nat, n: nat)
    requires t < |f| && n <= f[t].units
    ensures Sum(Rest(f, t, n)) + n == Sum(f)
  {
    assert f == f[..t] + ([f[t]] + f[t + 1..]);
    SumConcat(f[..t], [f[t]] + f[t + 1..]);
    SumConcat([f[t]], f[t + 1..]);
    if f[t].units == n {
      SumConcat(f[..t], f[t + 1..]);
    } else {
      var b := Blk(f[t].addr, f[t].units - n);
      assert Rest(f, t, n) == f[..t] + ([b] + f[t + 1..]);
      SumConcat(f[..t], [b] + f[t + 1..]);
      SumConcat([b], f[t + 1..]);
    }
  }

  /** What is carved out is apart from what is left. */
  lemma {:induction false} RestApart(f: seq<Blk>, t: nat, n: nat)
    requires Ordered(f) && 0 < t < |f| && 0 < n <= f[t].units
    ensures Apart(Rest(f, t, n), Carved(f[t], n))
  {
    var r, c := Rest(f, t, n), Carved(f[t], n);
    Increasing(f, 0, t);
    forall i | 1 <= i < |f| && i != t ensures Disjoint(f[i], f[t]) {
      Increasing(f, if i < t then i else t, if i < t then t else i);
    }
    forall i | 1 <= i < |r| ensures Disjoint(r[i], c) {
      if f[t].units == n {
        assert Disjoint(f[if i < t then i else i + 1], f[t]);
      } else if i != t {
        assert Disjoint(f[i], f[t]);
      }
    }
  }

  /** A block apart from the list is apart from both parts. */
  lemma {:induction false} CarveApart(f: seq<Blk>, t: nat, n: nat, c: Blk)
    requires Apart(f, c) && 0 < t < |f| && 0 < n <= f[t].units
    ensures Apart(Rest(f, t, n), c) && Disjoint(Carved(f[t], n), c)
  {
    var r := Rest(f, t, n);
    assert Disjoint(f[t], c);
    forall i | 1 <= i < |r| ensures Disjoint(r[i], c) {
      assert Disjoint(f[if f[t].units == n && i >= t then i + 1 else i], c);
    }
  }

  lemma {:induction false} CarveWithin(f: seq<Blk>, t: nat, n: nat, got: set<nat>)
    requires Within(f, got) && t < |f| && n <= f[t].units
    ensures Within(Rest(f, t, n), got) && BlockWithin(Carved(f[t], n), got)
  {
    var r, c := Rest(f, t, n), Carved(f[t], n);
    forall i, m | 0 <= i < |r| && 0 <= m < r[i].units ensures UnitAt(r[i], m) in got {
      assert UnitAt(f[if f[t].units == n && i >= t then i + 1 else i], m) in got;
    }
    forall m | 0 <= m < n ensures UnitAt(c, m) in got {
      assert UnitAt(f[t], f[t].units - n + m) in got;
    }
  }

  /** n consecutive units from address a. */
  ghost function UnitsFrom(a: nat, n: nat): (s: set<nat>) {
    set k | 0 <= k < n :: a + UNIT * k
  }

  lemma {:induction false} UnitsCount(a: nat, n: nat)
    ensures |UnitsFrom(a, n)| == n
  {
    if n > 0 {
      UnitsCount(a, n - 1);
      assert UnitsFrom(a, n) == UnitsFrom(a, n - 1) + {a + UNIT * (n - 1)};
    }
  }
}
