/** Two-level page tables (32-bit paging, section 4.3 of the Intel SDM, volume 3A) over physical
    memory, the flat page map they stand for, and who owns which physical page. */
module PageTables {
  import opened Bytes

  const PGWORDS := 1024
  const PGSIZE := 4096
  /** Virtual pages, and those below KERNBASE. */
  const VPAGES := 0x10_0000
  const USER := 0x8_0000

  const PTE_P := 1
  const PTE_W := 2
  const PTE_U := 4

  type Page = p: seq<uint32> | |p| == PGWORDS witness seq(PGWORDS, i => 0)

  function Zeros(): (p: Page)
    ensures forall i | 0 <= i < PGWORDS :: p[i] == 0
  {
    seq(PGWORDS, i => 0)
  }

  type Memory = seq<Page>

  predicate Present(w: uint32) {
    w % 2 == 1
  }

  /** The page an entry points to, and its low twelve bits. */
  function PageOf(w: uint32): (n: nat) {
    w / PGSIZE
  }

  function Flags(w: uint32): (f: nat) {
    w % PGSIZE
  }

  /** What an owned page is for: the directory, the table for entry i, or the user page v. */
  datatype Role = Dir | Tab(i: nat) | Frame(v: nat)

  /** An address space: its directory page, the tables present, the flat map from virtual page to
      entry, and the use of every page it owns. */
  datatype Space = Space(dir: nat, tabs: map<nat, nat>, flat: map<nat, uint32>, role: map<nat, Role>)

  function Entry(sp: Space, v: nat): (w: uint32) {
    if v in sp.flat then sp.flat[v] else 0
  }

  /** Entry i of the directory is in memory as the space says. */
  predicate DirEntryOK(mem: Memory, sp: Space, i: nat)
    requires i < PGWORDS && sp.dir < |mem|
  {
    mem[sp.dir][i] == if i in sp.tabs then sp.tabs[i] * PGSIZE + 7 else 0
  }

  /** The entry of virtual page v is in memory as the space says. */
  predicate TabEntryOK(mem: Memory, sp: Space, v: nat)
    requires v < VPAGES
  {
    if v / PGWORDS in sp.tabs
    then sp.tabs[v / PGWORDS] < |mem| && mem[sp.tabs[v / PGWORDS]][v % PGWORDS] == Entry(sp, v)
    else v !in sp.flat
  }

  predicate Roles(sp: Space) {
    && sp.dir in sp.role && sp.role[sp.dir] == Dir
    && (forall i | i in sp.tabs :: i < PGWORDS && sp.tabs[i] in sp.role && sp.role[sp.tabs[i]] == Tab(i))
    && (forall v | v in sp.flat :: v < VPAGES && Present(sp.flat[v]))
    && (forall v | v in sp.flat && v < USER :: PageOf(sp.flat[v]) in sp.role && sp.role[PageOf(sp.flat[v])] == Frame(v))
  }

  predicate RoleOK(sp: Space, n: nat)
    requires n in sp.role
  {
    match sp.role[n]
    case Dir => n == sp.dir
    case Tab(i) => i in sp.tabs && sp.tabs[i] == n
    case Frame(v) => v in sp.flat && v < USER && PageOf(sp.flat[v]) == n
  }

  /** Pages that hold the tables themselves. */
  predicate Holds(sp: Space, n: nat) {
    n in sp.role && !sp.role[n].Frame?
  }

  predicate SpaceOK(mem: Memory, sp: Space) {
    && Roles(sp) && sp.dir < |mem|
    && (forall n | n in sp.role :: n < |mem| && RoleOK(sp, n))
    && (forall i | 0 <= i < PGWORDS :: DirEntryOK(mem, sp, i))
    && (forall v | 0 <= v < VPAGES :: TabEntryOK(mem, sp, v))
  }

  // ---------- the two-level walk ----------

  /** What the hardware finds for virtual page v. */
  function Lookup(mem: Memory, dir: nat, v: nat): (w: uint32)
    requires dir < |mem| && v < VPAGES
  {
    var pde := mem[dir][v / PGWORDS];
    if !Present(pde) || PageOf(pde) >= |mem| then 0 else mem[PageOf(pde)][v % PGWORDS]
  }

  /** The walk over the tables computes the flat map. */
  lemma {:induction false} LookupIsFlat(mem: Memory, sp: Space, v: nat)
    requires SpaceOK(mem, sp) && v < VPAGES
    ensures Lookup(mem, sp.dir, v) == Entry(sp, v) && (Present(Lookup(mem, sp.dir, v)) <==> v in sp.flat)
  {
    var i := v / PGWORDS;
    assert DirEntryOK(mem, sp, i) && TabEntryOK(mem, sp, v);
    if i in sp.tabs {
      PdeParts(sp.tabs[i]);
    }
  }

  lemma {:induction false} PdeParts(n: nat)
    ensures (n * PGSIZE + 7) / PGSIZE == n && (n * PGSIZE + 7) % 2 == 1 && (n * PGSIZE + 7) % PGSIZE == 7
  {
  }

  /** What the first step of the walk sees. */
  lemma {:induction false} DirEntry(mem: Memory, sp: Space, i: nat)
    requires SpaceOK(mem, sp) && i < PGWORDS
    ensures sp.dir < |mem| && sp.dir in sp.role
    ensures Present(mem[sp.dir][i]) <==> i in sp.tabs
    ensures i in sp.tabs ==> PageOf(mem[sp.dir][i]) == sp.tabs[i] && sp.tabs[i] < |mem| && sp.tabs[i] in sp.role
    ensures i in sp.tabs ==> sp.role[sp.tabs[i]] == Tab(i)
  {
    assert DirEntryOK(mem, sp, i);
    if i in sp.tabs {
      PdeParts(sp.tabs[i]);
    }
  }

  // ---------- changes to memory ----------

  /** A space depends only on the pages that hold its tables. */
  lemma {:induction false} Elsewhere(mem: Memory, mem': Memory, sp: Space)
    requires SpaceOK(mem, sp) && |mem'| == |mem|
    requires forall n | n in sp.role && Holds(sp, n) :: mem'[n] == mem[n]
    ensures SpaceOK(mem', sp)
  {
    forall i | 0 <= i < PGWORDS
      ensures DirEntryOK(mem', sp, i)
    {
      assert DirEntryOK(mem, sp, i);
    }
    forall v | 0 <= v < VPAGES
      ensures TabEntryOK(mem', sp, v)
    {
      assert TabEntryOK(mem, sp, v);
      assert v / PGWORDS in sp.tabs ==> Holds(sp, sp.tabs[v / PGWORDS]);
    }
  }

  /** A new empty table. */
  function WithTable(sp: Space, i: nat, t: nat): (r: Space) {
    sp.(tabs := sp.tabs[i := t], role := sp.role[t := Tab(i)])
  }

  /** Memory after page t is cleared and entry i of directory d points to it. */
  function HangTable(mem: Memory, d: nat, i: nat, t: nat): (r: Memory)
    requires d < |mem| && t < |mem| <= USER && i < PGWORDS
  {
    var cleared: Memory := mem[t := Zeros()];
    cleared[d := cleared[d][i := t * PGSIZE + 7]]
  }

  lemma {:induction false} TableAdded(mem: Memory, sp: Space, i: nat, t: nat)
    requires SpaceOK(mem, sp) && i < PGWORDS && i !in sp.tabs && t < |mem| <= USER && t !in sp.role
    ensures SpaceOK(HangTable(mem, sp.dir, i, t), WithTable(sp, i, t))
  {
    var mem' := HangTable(mem, sp.dir, i, t);
    var r := WithTable(sp, i, t);
    assert t != sp.dir;
    forall j | 0 <= j < PGWORDS
      ensures DirEntryOK(mem', r, j)
    {
      assert DirEntryOK(mem, sp, j);
    }
    forall v | 0 <= v < VPAGES
      ensures TabEntryOK(mem', r, v)
    {
      assert TabEntryOK(mem, sp, v);
    }
    forall n | n in r.role
      ensures n < |mem'| && RoleOK(r, n)
    {
      assert n != t ==> RoleOK(sp, n);
    }
  }

  /** Virtual page v becomes present with entry w; a user page also becomes owned. */
  function WithEntry(sp: Space, v: nat, w: uint32): (r: Space) {
    sp.(flat := sp.flat[v := w], role := if v < USER then sp.role[PageOf(w) := Frame(v)] else sp.role)
  }

  function WithoutEntry(sp: Space, v: nat): (r: Space)
    requires v in sp.flat
  {
    sp.(flat := sp.flat - {v}, role := if v < USER then sp.role - {PageOf(sp.flat[v])} else sp.role)
  }

  /** Memory after the entry of v is set. */
  function Poke(mem: Memory, sp: Space, v: nat, w: uint32): (r: Memory)
    requires v / PGWORDS in sp.tabs && sp.tabs[v / PGWORDS] < |mem|
  {
    var t := sp.tabs[v / PGWORDS];
    mem[t := mem[t][v % PGWORDS := w]]
  }

  lemma {:induction false} Poked(mem: Memory, sp: Space, v: nat, w: uint32, sp': Space, u: nat)
    requires SpaceOK(mem, sp) && v < VPAGES && u < VPAGES && v / PGWORDS in sp.tabs
    requires sp'.tabs == sp.tabs && Entry(sp', v) == w
    requires u != v ==> Entry(sp', u) == Entry(sp, u) && (u in sp'.flat <==> u in sp.flat)
    ensures sp.tabs[v / PGWORDS] < |mem| && TabEntryOK(Poke(mem, sp, v, w), sp', u)
  {
    assert TabEntryOK(mem, sp, v) && TabEntryOK(mem, sp, u);
    var i, j := v / PGWORDS, u / PGWORDS;
    assert j in sp.tabs && i != j ==> sp.role[sp.tabs[i]] != sp.role[sp.tabs[j]];
  }

  lemma {:induction false} PokedDir(mem: Memory, sp: Space, v: nat, w: uint32)
    requires SpaceOK(mem, sp) && v < VPAGES && v / PGWORDS in sp.tabs
    ensures sp.tabs[v / PGWORDS] < |mem| && Poke(mem, sp, v, w)[sp.dir] == mem[sp.dir]
  {
    assert TabEntryOK(mem, sp, v);
    assert sp.role[sp.tabs[v / PGWORDS]] != sp.role[sp.dir];
  }

  lemma {:induction false} EntryAdded(mem: Memory, sp: Space, v: nat, w: uint32)
    requires SpaceOK(mem, sp) && v < VPAGES && v / PGWORDS in sp.tabs && v !in sp.flat && Present(w)
    requires v < USER ==> PageOf(w) < |mem| && PageOf(w) !in sp.role
    ensures sp.tabs[v / PGWORDS] < |mem| && SpaceOK(Poke(mem, sp, v, w), WithEntry(sp, v, w))
  {
    var r := WithEntry(sp, v, w);
    PokedDir(mem, sp, v, w);
    var mem' := Poke(mem, sp, v, w);
    forall u | 0 <= u < VPAGES
      ensures TabEntryOK(mem', r, u)
    {
      Poked(mem, sp, v, w, r, u);
    }
    AddedRoles(mem, sp, v, w);
    forall i | 0 <= i < PGWORDS
      ensures DirEntryOK(mem', r, i)
    {
      assert DirEntryOK(mem, sp, i);
    }
  }

  lemma {:induction false} AddedRoles(mem: Memory, sp: Space, v: nat, w: uint32)
    requires SpaceOK(mem, sp) && v < VPAGES && v !in sp.flat && Present(w)
    requires v < USER ==> PageOf(w) < |mem| && PageOf(w) !in sp.role
    ensures var r := WithEntry(sp, v, w); Roles(r) && forall n | n in r.role :: n < |mem| && RoleOK(r, n)
  {
    hide TabEntryOK, DirEntryOK;
    var r := WithEntry(sp, v, w);
    forall n | n in r.role
      ensures n < |mem| && RoleOK(r, n)
    {
      assert n in sp.role ==> RoleOK(sp, n);
    }
  }

  lemma {:induction false} EntryRemoved(mem: Memory, sp: Space, v: nat)
    requires SpaceOK(mem, sp) && v in sp.flat
    ensures v < VPAGES && v / PGWORDS in sp.tabs && sp.tabs[v / PGWORDS] < |mem|
    ensures SpaceOK(Poke(mem, sp, v, 0), WithoutEntry(sp, v))
  {
    var r := WithoutEntry(sp, v);
    assert TabEntryOK(mem, sp, v);
    PokedDir(mem, sp, v, 0);
    var mem' := Poke(mem, sp, v, 0);
    forall u | 0 <= u < VPAGES
      ensures TabEntryOK(mem', r, u)
    {
      Poked(mem, sp, v, 0, r, u);
    }
    RemovedRoles(mem, sp, v);
    forall i | 0 <= i < PGWORDS
      ensures DirEntryOK(mem', r, i)
    {
      assert DirEntryOK(mem, sp, i);
    }
  }

  lemma {:induction false} RemovedRoles(mem: Memory, sp: Space, v: nat)
    requires SpaceOK(mem, sp) && v in sp.flat
    ensures var r := WithoutEntry(sp, v); Roles(r) && forall n | n in r.role :: n < |mem| && RoleOK(r, n)
  {
    hide TabEntryOK, DirEntryOK;
    var r := WithoutEntry(sp, v);
    forall n | n in r.role
      ensures n < |mem| && RoleOK(r, n)
    {
      assert RoleOK(sp, n);
    }
  }
}
