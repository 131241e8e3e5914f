/** dirlookup and dirlink of fs.c: a directory is a file of 16-byte entries that behaves as a
    finite map on names cut to DIRSIZ bytes. */
module Directories {
  import opened Bytes
  import opened Options
  import opened FsLayout
  import opened FsGrowth
  import opened FsInode
  import opened FsBlocks
  import opened FsMap
  import opened FsFile
  import opened CStrings

  const DIRSIZ := 14
  const DIRENT := 16
  const T_DIR := 1

  type Name = seq<byte>

  /** Inode number and name of entry k; number 0 marks a free entry. */
  function EntInum(c: seq<byte>, k: nat): (n: nat)
    requires DIRENT * (k + 1) <= |c|
  {
    var lo: int, hi: int := c[DIRENT * k], c[DIRENT * k + 1];
    lo + 0x100 * hi
  }

  function EntName(c: seq<byte>, k: nat): (s: Name)
    requires DIRENT * (k + 1) <= |c|
  {
    CStr(c[DIRENT * k + 2..DIRENT * (k + 1)], DIRSIZ)
  }

  /** The bindings of the first n entries; an earlier entry hides a later one of the same name. */
  function DirMap(c: seq<byte>, n: nat): (m: map<Name, nat>)
    requires DIRENT * n <= |c|
  {
    if n == 0 then map[]
    else
      var m := DirMap(c, n - 1);
      if EntInum(c, n - 1) == 0 || EntName(c, n - 1) in m then m
      else m[EntName(c, n - 1) := EntInum(c, n - 1)]
  }

  /** The directory as a finite map. */
  function Bindings(c: seq<byte>): (m: map<Name, nat>)
    requires |c| % DIRENT == 0
  {
    DirMap(c, |c| / DIRENT)
  }

  lemma {:induction false} DirMapGrows(c: seq<byte>, k: nat, n: nat, name: Name)
    requires k <= n && DIRENT * n <= |c| && name in DirMap(c, k)
    ensures name in DirMap(c, n) && DirMap(c, n)[name] == DirMap(c, k)[name]
  {
    hide EntInum, EntName;
    if k < n {
      DirMapGrows(c, k, n - 1, name);
    }
  }

  lemma {:induction false} DirMapShrinks(c: seq<byte>, k: nat, n: nat, name: Name)
    requires k <= n && DIRENT * n <= |c| && name !in DirMap(c, n)
    ensures name !in DirMap(c, k)
  {
    hide EntInum, EntName;
    if k < n {
      DirMapShrinks(c, k, n - 1, name);
    }
  }

  lemma {:induction false} DirMapPrefix(c: seq<byte>, d: seq<byte>, n: nat)
    requires DIRENT * n <= |c| && DIRENT * n <= |d| && c[..DIRENT * n] == d[..DIRENT * n]
    ensures DirMap(c, n) == DirMap(d, n)
  {
    if n > 0 {
      assert c[..DIRENT * (n - 1)] == c[..DIRENT * n][..DIRENT * (n - 1)] == d[..DIRENT * (n - 1)];
      DirMapPrefix(c, d, n - 1);
      assert c[DIRENT * (n - 1)..DIRENT * n] == c[..DIRENT * n][DIRENT * (n - 1)..] == d[DIRENT * (n - 1)..DIRENT * n];
      SameEntry(c, d, n - 1);
    }
  }

  lemma {:induction false} SameEntry(c: seq<byte>, d: seq<byte>, k: nat)
    requires DIRENT * (k + 1) <= |c| && DIRENT * (k + 1) <= |d|
    requires c[DIRENT * k..DIRENT * (k + 1)] == d[DIRENT * k..DIRENT * (k + 1)]
    ensures EntInum(c, k) == EntInum(d, k) && EntName(c, k) == EntName(d, k)
  {
    var e, f := c[DIRENT * k..DIRENT * (k + 1)], d[DIRENT * k..DIRENT * (k + 1)];
    assert c[DIRENT * k] == e[0] && c[DIRENT * k + 1] == e[1];
    assert d[DIRENT * k] == f[0] && d[DIRENT * k + 1] == f[1];
    assert c[DIRENT * k + 2..DIRENT * (k + 1)] == e[2..] && d[DIRENT * k + 2..DIRENT * (k + 1)] == f[2..];
  }

  datatype Lookup = LookupPanic | NotFound | Found(inum: nat, off: nat)

  /** Entry k is in use and carries the name. */
  ghost predicate Matches(c: seq<byte>, key: Name, k: nat) {
    DIRENT * (k + 1) <= |c| && EntInum(c, k) != 0 && EntName(c, k) == key
  }

  /** Entry k is the first to match. */
  ghost predicate FirstMatch(c: seq<byte>, key: Name, k: nat) {
    Matches(c, key, k) && forall j | 0 <= j < k :: !Matches(c, key, j)
  }

  lemma {:induction false} UnboundMatches(c: seq<byte>, key: Name, n: nat)
    requires DIRENT * n <= |c|
    ensures key !in DirMap(c, n) <==> forall j | 0 <= j < n :: !Matches(c, key, j)
  {
    hide EntInum, EntName;
    if n > 0 {
      UnboundMatches(c, key, n - 1);
      assert Matches(c, key, n - 1) ==> key in DirMap(c, n);
    }
  }

  /** The binding is that of the first matching entry. */
  lemma {:induction false} BoundFirst(c: seq<byte>, key: Name, k: nat, n: nat)
    requires k < n && DIRENT * n <= |c| && FirstMatch(c, key, k)
    ensures key in DirMap(c, n) && DirMap(c, n)[key] == EntInum(c, k)
  {
    hide EntInum, EntName;
    UnboundMatches(c, key, k);
    DirMapGrows(c, k + 1, n, key);
  }

  /** Found exactly when the name is bound, with its inode and the offset of the first entry for it.
      An unbound name is not found, or runs into the part of an entry at the end. */
  ghost predicate LookupSpec(c: seq<byte>, key: Name, r: Lookup) {
    var m := DirMap(c, |c| / DIRENT);
    && (r.Found? <==> key in m)
    && (r.LookupPanic? <==> key !in m && |c| % DIRENT != 0)
    && (r.Found? ==> r.inum == m[key] != 0 && r.off % DIRENT == 0 && FirstMatch(c, key, r.off / DIRENT))
  }

  /** Finds the entry a name is bound to, by the first 14 bytes of the name. */
  method Dirlookup(fs: FileSys, dp: Inode, name: seq<byte>) returns (r: Lookup)
    requires fs.Settled() && fs.Locked(dp) && Readable(name, DIRSIZ)
    modifies fs`blocks, fs`tab, fs`owner, fs`live, fs`logged, fs`puts, dp`addrs
    ensures unchanged(fs) && unchanged(dp)
    ensures dp.typ != T_DIR ==> r.LookupPanic?
    ensures dp.typ == T_DIR ==> LookupSpec(Content(fs.blocks, fs.tab[dp.inum]), CStr(name, DIRSIZ), r)
  {
    hide SlotAddr, SlotsOwned, OwnersSlot, Mapped, BitmapOK, OnDisk, Content, EntInum, EntName, CStr, Readable, DirMap,
         Recorded;
    if dp.typ != T_DIR {
      return LookupPanic;
    }
    ghost var c := Content(fs.blocks, fs.tab[dp.inum]);
    ghost var key := CStr(name, DIRSIZ);
    var off, k := 0, 0;
    while off < dp.size
      invariant unchanged(fs) && unchanged(dp)
      invariant off == DIRENT * k <= dp.size
      invariant forall j | 0 <= j < k :: !Matches(c, key, j)
    {
      var de := ReadEntry(fs, dp, off, k);
      if de.None? {
        UnboundMatches(c, key, k);
        return LookupPanic;
      }
      if de.value.0 != 0 {
        var cmp := Strncmp(name, de.value.1, DIRSIZ);
        if cmp == 0 {
          BoundFirst(c, key, k, dp.size / DIRENT);
          return Found(de.value.0, off);
        }
      }
      off, k := off + DIRENT, k + 1;
    }
    UnboundMatches(c, key, k);
    r := NotFound;
  }

  /** Entry k of a directory: its inode number and name field.  None is a short read. */
  method ReadEntry(fs: FileSys, dp: Inode, off: nat, ghost k: nat) returns (r: Option<(nat, seq<byte>)>)
    requires fs.Settled() && fs.Locked(dp) && dp.typ != T_DEV && off == DIRENT * k < dp.size
    modifies fs`blocks, fs`tab, fs`owner, fs`live, fs`logged, fs`puts, dp`addrs
    ensures unchanged(fs) && unchanged(dp)
    ensures r.Some? <==> DIRENT * (k + 1) <= dp.size
    ensures r.Some? ==>
      && r.value.0 == EntInum(Content(fs.blocks, fs.tab[dp.inum]), k)
      && CStr(r.value.1, DIRSIZ) == EntName(Content(fs.blocks, fs.tab[dp.inum]), k)
      && Readable(r.value.1, DIRSIZ)
  {
    hide SlotAddr, SlotsOwned, OwnersSlot, Mapped, BitmapOK, OnDisk, Content, EntInum, EntName, CStr, Readable;
    var de := Readi(fs, dp, off, DIRENT);
    if |de.value| != DIRENT {
      return None;
    }
    EntryRead(Content(fs.blocks, fs.tab[dp.inum]), k, de.value);
    r := Some((de.value[0] as int + 0x100 * de.value[1] as int, de.value[2..]));
  }

  lemma {:induction false} EntryRead(c: seq<byte>, k: nat, de: seq<byte>)
    requires DIRENT * (k + 1) <= |c| && de == c[DIRENT * k..DIRENT * (k + 1)]
    ensures EntInum(c, k) == de[0] as int + 0x100 * de[1] as int && EntName(c, k) == CStr(de[2..], DIRSIZ)
    ensures Readable(de[2..], DIRSIZ)
  {
    assert de[2..] == c[DIRENT * k + 2..DIRENT * (k + 1)];
  }

  // ---------- dirlink ----------

  /** The sixteen bytes of an entry. */
  function Entry(key: Name, inum: nat): (e: seq<byte>)
    requires |key| <= DIRSIZ
    ensures |e| == DIRENT
  {
    [inum % 0x100, inum / 0x100 % 0x100] + Pad(key, DIRSIZ)
  }

  /** An entry reads back as written, its number cut to sixteen bits. */
  lemma {:induction false} EntryWritten(c: seq<byte>, k: nat, key: Name, inum: nat)
    requires DIRENT * (k + 1) <= |c| && |key| <= DIRSIZ && 0 !in key
    requires c[DIRENT * k..DIRENT * (k + 1)] == Entry(key, inum)
    ensures EntInum(c, k) == inum % 0x1_0000 && EntName(c, k) == key
  {
    hide Len, Pad;
    var de := c[DIRENT * k..DIRENT * (k + 1)];
    EntryRead(c, k, de);
    CStrPad(key, DIRSIZ);
    assert de[2..] == Pad(key, DIRSIZ);
    assert inum % 0x1_0000 == inum % 0x100 + 0x100 * (inum / 0x100 % 0x100);
  }

  /** Filling free entry k with an unbound name adds that binding to every longer prefix. */
  lemma {:induction false} DirMapAdds(c: seq<byte>, d: seq<byte>, k: nat, n: nat, key: Name, inum: nat)
    requires k < n && DIRENT * n <= |c| && DIRENT * n <= |d|
    requires forall j | 0 <= j < n && j != k :: EntInum(d, j) == EntInum(c, j) && EntName(d, j) == EntName(c, j)
    requires EntInum(c, k) == 0 && EntInum(d, k) == inum && EntName(d, k) == key
    requires DirMap(c, k) == DirMap(d, k) && key !in DirMap(c, n)
    ensures DirMap(d, n) == if inum == 0 then DirMap(c, n) else DirMap(c, n)[key := inum]
  {
    hide EntInum, EntName;
    DirMapShrinks(c, n - 1, n, key);
    if k < n - 1 {
      DirMapAdds(c, d, k, n - 1, key, inum);
    }
  }

  /** Overwriting entry k of the file, or appending it. */
  lemma {:induction false} Relinked(c: seq<byte>, k: nat, key: Name, inum: nat)
    requires |c| % DIRENT == 0 && DIRENT * k <= |c| && |key| <= DIRSIZ && 0 !in key && key !in Bindings(c)
    requires DIRENT * k < |c| ==> EntInum(c, k) == 0
    ensures var d := Overwrite(c, DIRENT * k, Entry(key, inum));
            && |d| == (if DIRENT * k < |c| then |c| else |c| + DIRENT) && |d| % DIRENT == 0
            && Bindings(d) == if inum % 0x1_0000 == 0 then Bindings(c) else Bindings(c)[key := inum % 0x1_0000]
  {
    hide EntInum, EntName, Entry, Overwrite, DirMap;
    var d := Overwrite(c, DIRENT * k, Entry(key, inum));
    var n := |c| / DIRENT;
    OverwriteEntry(c, k, Entry(key, inum));
    EntryWritten(d, k, key, inum);
    DirMapPrefix(c, d, k);
    if k < n {
      forall j | 0 <= j < n && j != k ensures EntInum(d, j) == EntInum(c, j) && EntName(d, j) == EntName(c, j) {
        SameEntry(d, c, j);
      }
      DirMapAdds(c, d, k, n, key, inum % 0x1_0000);
    } else {
      Appended(c, key, inum);
      AppendIsOverwrite(c, Entry(key, inum));
    }
  }

  /** Appending an entry with a new name to the file adds its binding. */
  lemma {:induction false} Appended(c: seq<byte>, key: Name, inum: nat)
    requires |c| % DIRENT == 0 && |key| <= DIRSIZ && 0 !in key && key !in Bindings(c)
    ensures Bindings(c + Entry(key, inum)) ==
            if inum % 0x1_0000 == 0 then Bindings(c) else Bindings(c)[key := inum % 0x1_0000]
  {
    hide EntInum, EntName, Entry;
    var d, k := c + Entry(key, inum), |c| / DIRENT;
    assert d[DIRENT * k..DIRENT * (k + 1)] == Entry(key, inum) && d[..DIRENT * k] == c[..DIRENT * k];
    EntryWritten(d, k, key, inum);
    DirMapPrefix(c, d, k);
  }

  lemma {:induction false} AppendIsOverwrite(c: seq<byte>, e: seq<byte>)
    ensures Overwrite(c, |c|, e) == c + e
  {
  }

  /** Writing sixteen bytes at entry k replaces that entry and no other. */
  lemma {:induction false} OverwriteEntry(c: seq<byte>, k: nat, e: seq<byte>)
    requires |c| % DIRENT == 0 && DIRENT * k <= |c| && |e| == DIRENT
    ensures var d := Overwrite(c, DIRENT * k, e);
            && |d| == (if DIRENT * k < |c| then |c| else |c| + DIRENT)
            && d[DIRENT * k..DIRENT * (k + 1)] == e && d[..DIRENT * k] == c[..DIRENT * k]
            && forall j | 0 <= j < |c| / DIRENT && j != k :: d[DIRENT * j..DIRENT * (j + 1)] == c[DIRENT * j..DIRENT * (j + 1)]
  {
    var d := Overwrite(c, DIRENT * k, e);
    assert forall i | 0 <= i < |c| && !(DIRENT * k <= i < DIRENT * (k + 1)) :: d[i] == c[i];
  }

  /** The first free entry from k on, or the end of the file. */
  function FreeFrom(c: seq<byte>, k: nat): (j: nat)
    requires DIRENT * k <= |c|
    ensures k <= j <= |c| / DIRENT && (forall i | k <= i < j :: EntInum(c, i) != 0)
    ensures j < |c| / DIRENT ==> EntInum(c, j) == 0
    decreases |c| / DIRENT - k
  {
    if k == |c| / DIRENT || EntInum(c, k) == 0 then k else FreeFrom(c, k + 1)
  }

  /** Where dirlink writes. */
  function LinkOffset(c: seq<byte>): (off: nat) {
    DIRENT * FreeFrom(c, 0)
  }

  /** The entry cannot be written: the directory is at its largest, or the blocks for it are missing. */
  ghost predicate NoRoom(sb: Super, x: State, i: nat)
    requires TableShape(sb, x.blocks, x.tab) && i < |x.tab|
  {
    var off := LinkOffset(Content(x.blocks, x.tab[i]));
    Outside(off, DIRENT, x.tab[i].size) || TooFew(sb, x, i, Wanted(off, DIRENT))
  }

  datatype LinkResult = LinkPanic | AlreadyThere | Linked

  /** Binds an unbound name.  A bound name is refused and nothing changes.  Otherwise the entry goes
      to the first free place or to the end, exactly that binding is added (an inode number that is
      0 in sixteen bits adds none), and no other file changes; unless the directory ends in part of
      an entry, is at its largest, or lacks a block that is not to be had, the only panics. */
  method Dirlink(fs: FileSys, dp: Inode, name: seq<byte>, inum: nat) returns (r: LinkResult)
    requires fs.Settled() && fs.Locked(dp) && Readable(name, DIRSIZ)
    modifies fs`blocks, fs`tab, fs`owner, fs`live, fs`logged, fs`puts, dp`addrs, dp`size
    ensures r.AlreadyThere? <==> old(dp.typ == T_DIR && Bound(Content(fs.blocks, fs.tab[dp.inum]), CStr(name, DIRSIZ)))
    ensures r.AlreadyThere? ==> unchanged(fs) && unchanged(dp)
    ensures r.LinkPanic? <==> old(
      dp.typ != T_DIR
      || (!Bound(Content(fs.blocks, fs.tab[dp.inum]), CStr(name, DIRSIZ))
          && (dp.size % DIRENT != 0 || NoRoom(fs.sb, fs.Image(), dp.inum))))
    ensures r.Linked? ==>
      && fs.Settled() && fs.Locked(dp)
      && OthersKept(fs.sb, old(fs.blocks), old(fs.tab), fs.blocks, fs.tab, dp.inum)
      && LinkSpec(old(Content(fs.blocks, fs.tab[dp.inum])), Content(fs.blocks, fs.tab[dp.inum]), CStr(name, DIRSIZ), inum)
  {
    hide SlotAddr, SlotsOwned, OwnersSlot, Mapped, BitmapOK, OnDisk, Content, OthersKept, EntInum, EntName, CStr,
         Readable, Overwrite, DirMap, Pad, LinkSpec, Recorded, Grew, TooFew, Wanted, WriteLogs, DataCost, FreeFrom;
    ghost var c := Content(fs.blocks, fs.tab[dp.inum]);
    ghost var key := CStr(name, DIRSIZ);
    var found := Dirlookup(fs, dp, name);
    if found.LookupPanic? {
      return LinkPanic;
    }
    if found.Found? {
      return AlreadyThere;
    }
    var off, k := 0, 0;
    while off < dp.size
      invariant unchanged(fs) && unchanged(dp)
      invariant off == DIRENT * k <= dp.size && FreeFrom(c, 0) == FreeFrom(c, k)
    {
      FreeNext(c, k);
      var de := ReadEntry(fs, dp, off, k);
      if de.None? {
        return LinkPanic;
      }
      if de.value.0 == 0 {
        break;
      }
      off, k := off + DIRENT, k + 1;
    }
    FreeNext(c, k);
    NameFits(name);
    var field := Strncpy(name, DIRSIZ);
    var de := [inum % 0x100, inum / 0x100 % 0x100] + field;
    assert de == Entry(key, inum);
    LinkedSpec(c, k, key, inum);
    var w := Writei(fs, dp, de, off);
    if !w.Wrote? || w.n != DIRENT {
      return LinkPanic;
    }
    r := Linked;
  }

  /** A whole entry binds the name. */
  ghost predicate Bound(c: seq<byte>, key: Name) {
    key in DirMap(c, |c| / DIRENT)
  }

  lemma {:induction false} FreeNext(c: seq<byte>, k: nat)
    requires DIRENT * k <= |c|
    ensures DIRENT * (k + 1) <= |c| ==> FreeFrom(c, k) == if EntInum(c, k) == 0 then k else FreeFrom(c, k + 1)
    ensures DIRENT * k == |c| ==> FreeFrom(c, k) == k
  {
  }

  lemma {:induction false} NameFits(name: seq<byte>)
    ensures |CStr(name, DIRSIZ)| <= DIRSIZ && 0 !in CStr(name, DIRSIZ)
  {
  }

  lemma {:induction false} LinkedSpec(c: seq<byte>, k: nat, key: Name, inum: nat)
    requires |c| % DIRENT == 0 && |key| <= DIRSIZ && 0 !in key && key !in Bindings(c) && k == FreeFrom(c, 0)
    ensures LinkSpec(c, Overwrite(c, DIRENT * k, Entry(key, inum)), key, inum)
  {
    hide Overwrite, Entry, DirMap, EntInum, FreeFrom;
    Relinked(c, k, key, inum);
  }

  /** d is directory c with the entry written in the first free place or at the end: the name is bound
      to inum, cut to sixteen bits, and no other binding changed. */
  ghost predicate LinkSpec(c: seq<byte>, d: seq<byte>, key: Name, inum: nat) {
    && |c| % DIRENT == 0 && |d| % DIRENT == 0 && |key| <= DIRSIZ
    && d == Overwrite(c, LinkOffset(c), Entry(key, inum))
    && Bindings(d) == if inum % 0x1_0000 == 0 then Bindings(c) else Bindings(c)[key := inum % 0x1_0000]
  }

  /** After dirlink, dirlookup of the name gives the inode and the place just written, and dirlookup
      of any other name gives what it gave before. */
  lemma {:induction false} LinkThenLookup(c: seq<byte>, d: seq<byte>, key: Name, inum: nat, other: Name, r: Lookup)
    requires LinkSpec(c, d, key, inum) && key !in Bindings(c) && 0 !in key && inum % 0x1_0000 != 0
    requires LookupSpec(d, other, r)
    ensures other == key ==> r == Found(inum % 0x1_0000, LinkOffset(c))
    ensures other != key ==> LookupSpec(c, other, r)
  {
    hide EntInum, EntName, Entry, Overwrite, DirMap, FreeFrom;
    var k := FreeFrom(c, 0);
    OverwriteEntry(c, k, Entry(key, inum));
    EntryWritten(d, k, key, inum);
    UnboundMatches(c, key, |c| / DIRENT);
    forall j | 0 <= j < |c| / DIRENT && j != k
      ensures EntInum(d, j) == EntInum(c, j) && EntName(d, j) == EntName(c, j)
    {
      SameEntry(d, c, j);
    }
    if r.Found? {
      var j := r.off / DIRENT;
      assert r.off == DIRENT * j;
      if other == key {
        assert Matches(d, key, k);
        assert j != k ==> !Matches(c, key, j);
      } else {
        assert forall i | 0 <= i < j :: Matches(c, other, i) ==> Matches(d, other, i);
      }
    }
  }
}
