/** bio.c as code. Each method is one region that the kernel runs under bcache.lock, or under the sleep
    lock of the buffer it works on, so any interleaving of callers is a sequence of these calls. */
module BufferCache {
  import opened Bytes
  import opened Options
  import opened BufferList
  import opened BufferState

  ghost function EntryOf(b: Buf): (e: Entry)
    reads b
  {
    Entry((b.dev, b.blockno), b.valid, b.dirty, b.locked, b.refcnt, b.data, b.handed, b.touched, b.stamp)
  }

  ghost function Entries(list: seq<Buf>): (es: seq<Entry>)
    reads list
    ensures |es| == |list| && forall i | 0 <= i < |list| :: es[i] == EntryOf(list[i])
  {
    if list == [] then [] else Entries(list[..|list| - 1]) + [EntryOf(list[|list| - 1])]
  }

  lemma {:induction false} Alone(head: Buf, list: seq<Buf>, i: nat)
    requires Linked(head, list) && i < |list|
    ensures forall j | 0 <= j < |list| && j != i :: list[j] != list[i]
  {
  }

  /** Only the buffer at position i changed. */
  lemma {:induction false} OneChanged(list: seq<Buf>, i: nat, es: seq<Entry>)
    requires |es| == |list| && i < |list| && forall j | 0 <= j < |list| && j != i :: EntryOf(list[j]) == es[j]
    ensures Entries(list) == es[i := EntryOf(list[i])]
  {
    hide Entries;
  }

  /** The buffer at position i changed and moved to the front. */
  lemma {:induction false} FrontChanged(list: seq<Buf>, i: nat, es: seq<Entry>)
    requires |es| == |list| && i < |list| && forall j | 0 <= j < |list| && j != i :: EntryOf(list[j]) == es[j]
    ensures Entries(ToFront(list, i)) == Front(es, i, EntryOf(list[i]))
  {
    hide Entries;
    var fs, r := Entries(ToFront(list, i)), Front(es, i, EntryOf(list[i]));
    forall j | 0 <= j < |fs|
      ensures fs[j] == r[j]
    {
    }
  }

  lemma {:induction false} EntryAt(es: seq<Entry>, i: nat, disk: Store, pinned: Store, clock: nat)
    requires Coherent(es, disk, pinned, clock) && i < |es|
    ensures EntryOK(es[i], disk, pinned, clock)
  {
  }

  // ---------- counts and users ----------

  /** The count of every buffer is the number of its users. */
  ghost predicate CountsAre(es: seq<Entry>, list: seq<Buf>, users: map<Buf, nat>) {
    |es| == |list| && forall j | 0 <= j < |list| :: list[j] in users && es[j].refcnt == users[list[j]]
  }

  lemma {:induction false} CountsSame(es: seq<Entry>, i: nat, e: Entry, list: seq<Buf>, users: map<Buf, nat>)
    requires CountsAre(es, list, users) && i < |es| && e.refcnt == es[i].refcnt
    ensures CountsAre(es[i := e], list, users)
  {
  }

  /** One user more or less of the buffer at position i, and its count says so. */
  lemma {:induction false} CountsOne(es: seq<Entry>, i: nat, e: Entry, list: seq<Buf>, users: map<Buf, nat>)
    requires CountsAre(es, list, users) && i < |es| && forall j | 0 <= j < |list| && j != i :: list[j] != list[i]
    ensures list[i] in users && CountsAre(es[i := e], list, users[list[i] := e.refcnt])
  {
  }

  /** bget raises the count of the buffer it returns by one. */
  lemma {:induction false} CountsGet(es: seq<Entry>, k: Key, i: nat, list: seq<Buf>, users: map<Buf, nat>)
    requires CountsAre(es, list, users) && Target(es, k) == Some(i)
    requires forall j | 0 <= j < |list| && j != i :: list[j] != list[i]
    ensures list[i] in users && CountsAre(AfterGet(es, k), list, users[list[i] := users[list[i]] + 1])
  {
    hide Find, Victim;
    CountsOne(es, i, AfterGet(es, k)[i], list, users);
  }

  lemma {:induction false} GetNothing(es: seq<Entry>, k: Key)
    ensures Target(es, k).None? ==> AfterGet(es, k) == es
  {
    hide Find, Victim;
  }

  /** The last user moves the buffer to the front. */
  lemma {:induction false} CountsFront(es: seq<Entry>, i: nat, clock: nat, list: seq<Buf>, users: map<Buf, nat>)
    requires CountsAre(es, list, users) && i < |es| && es[i].refcnt == 1
    requires forall j | 0 <= j < |list| && j != i :: list[j] != list[i]
    ensures list[i] in users
    ensures CountsAre(Front(es, i, Released(es[i], clock)), ToFront(list, i), users[list[i] := users[list[i]] - 1])
  {
    var r, l := Front(es, i, Released(es[i], clock)), ToFront(list, i);
    forall j | 0 <= j < |l|
      ensures j > 0 ==> l[j] == list[Was(i, j)] && r[j] == es[Was(i, j)]
    {
    }
  }

  lemma {:induction false} UserAt(es: seq<Entry>, i: nat, list: seq<Buf>, users: map<Buf, nat>)
    requires CountsAre(es, list, users) && i < |es|
    ensures |es| == |list| && list[i] in users && es[i].refcnt == users[list[i]]
  {
  }

  class Cache {
    const head: Buf
    var disk: Store
    ghost var list: seq<Buf>
    ghost var pinned: Store
    ghost var clock: nat
    /** The calls of bget for each buffer that no brelse has answered yet. */
    ghost var users: map<Buf, nat>

    /** The circle is intact, the buffers agree with the disk and with what is pinned, and the count of
        each is the number of its users. */
    ghost predicate Valid()
      reads this, head, list
    {
      && Linked(head, list) && Coherent(Entries(list), disk, pinned, clock)
      && CountsAre(Entries(list), list, users)
    }

    /** Every buffer is in use or pinned, and none is the block's. */
    ghost predicate Exhausted(dev: nat, blockno: nat)
      requires CountsAre(Entries(list), list, users)
      reads this, list
    {
      && (forall j | 0 <= j < |list| :: users[list[j]] > 0 || list[j].dirty)
      && (forall j | 0 <= j < |list| :: list[j].dev != dev || list[j].blockno != blockno)
    }

    ghost predicate At(b: Buf, i: nat)
      reads this
    {
      i < |list| && list[i] == b
    }

    /** binit */
    constructor (n: nat, disk: Store)
      ensures Valid() && |list| == n && this.disk == disk && pinned == map[]
      ensures fresh(head) && fresh(set b | b in list)
      ensures forall b | b in list :: b in users && !b.handed && users[b] == 0
    {
      hide Coherent, Entries, Linked;
      var h := new Buf();
      head := h;
      this.disk := disk;
      list, pinned, clock, users := [], map[], 0, map[];
      new;
      head.prev := head;
      head.next := head;
      NoneLinked(head);
      for k := 0 to n
        invariant |list| == k && Linked(head, list) && fresh(head) && fresh(set b | b in list)
        invariant this.disk == disk && pinned == map[] && clock == 0 && head == h
        invariant forall b | b in list :: Unused(b)
      {
        var b := new Buf();
        PushFront(head, b, list);
        list := [b] + list;
      }
      FreshCoherent(list, disk);
      NoUsers();
    }

    ghost method NoUsers()
      requires Linked(head, list) && Coherent(Entries(list), disk, pinned, clock)
      requires forall b | b in list :: b.refcnt == 0
      modifies this`users
      ensures Valid() && forall b | b in list :: b in users && users[b] == 0
    {
      hide Linked, Coherent, Entries;
      users := map b | b in list :: 0;
    }

    /** Finds or recycles a buffer for the block and gives it one more user; null is the panic, exactly
        when every buffer is in use or pinned and none is the block's. */
    method Bget(dev: nat, blockno: nat) returns (b: Buf?, ghost i: nat)
      requires Valid()
      modifies list`dev, list`blockno, list`valid, list`dirty, list`refcnt, list`handed, list`touched, this`users
      ensures b == null <==> old(Exhausted(dev, blockno))
      ensures b == null ==> users == old(users)
      ensures b != null ==> b in old(users) && users == old(users)[b := old(users)[b] + 1]
      ensures Valid() && Entries(list) == AfterGet(old(Entries(list)), (dev, blockno))
      ensures b != null ==> Target(old(Entries(list)), (dev, blockno)) == Some(i) && At(b, i)
    {
      hide Linked, Coherent, Entries, Find, Victim, CountsAre, AfterGet, Target;
      ghost var es, k := Entries(list), (dev, blockno);
      NoTargetIff(dev, blockno);
      GetNothing(es, k);
      b, i := Scan(dev, blockno);
      if b != null {
        Alone(head, list, i);
        CountsGet(es, k, i, list, users);
        users := users[b := users[b] + 1];
      }
    }

    /** The two scans of bget. */
    method Scan(dev: nat, blockno: nat) returns (b: Buf?, ghost i: nat)
      requires Linked(head, list) && Coherent(Entries(list), disk, pinned, clock)
      modifies list`dev, list`blockno, list`valid, list`dirty, list`refcnt, list`handed, list`touched
      ensures Linked(head, list) && Coherent(Entries(list), disk, pinned, clock)
      ensures Entries(list) == AfterGet(old(Entries(list)), (dev, blockno))
      ensures b == null <==> Target(old(Entries(list)), (dev, blockno)).None?
      ensures b != null ==> Target(old(Entries(list)), (dev, blockno)) == Some(i) && At(b, i)
    {
      hide Linked, Coherent, Entries, Find, Victim;
      ghost var es := Entries(list);
      GetKeeps(es, (dev, blockno), disk, pinned, clock);
      b, i := FindCached(dev, blockno);
      if b != null {
        Share(b, i);
      } else {
        b, i := FindUnused();
        if b != null {
          Relabel(b, i, dev, blockno);
        }
      }
    }

    lemma {:induction false} NoTargetIff(dev: nat, blockno: nat)
      requires CountsAre(Entries(list), list, users)
      ensures Target(Entries(list), (dev, blockno)).None? <==> Exhausted(dev, blockno)
    {
      hide Find, Victim;
      var es := Entries(list);
      if Target(es, (dev, blockno)).Some? {
        var j := Target(es, (dev, blockno)).value;
        assert es[j] == EntryOf(list[j]);
      } else {
        forall j | 0 <= j < |list|
          ensures users[list[j]] > 0 || list[j].dirty
          ensures list[j].dev != dev || list[j].blockno != blockno
        {
          assert es[j] == EntryOf(list[j]) && !Idle(es[j]) && es[j].key != (dev, blockno);
        }
      }
    }

    method Share(b: Buf, ghost i: nat)
      requires Linked(head, list) && At(b, i)
      modifies b`refcnt, b`handed
      ensures Entries(list) == old(Entries(list))[i := Hit(old(EntryOf(b)))]
    {
      hide Linked, Entries;
      ghost var es := Entries(list);
      Alone(head, list, i);
      b.refcnt := b.refcnt + 1;
      b.handed := true;
      OneChanged(list, i, es);
    }

    method Relabel(b: Buf, ghost i: nat, dev: nat, blockno: nat)
      requires Linked(head, list) && At(b, i)
      modifies b`dev, b`blockno, b`valid, b`dirty, b`refcnt, b`handed, b`touched
      ensures Entries(list) == old(Entries(list))[i := Recycled(old(EntryOf(b)), (dev, blockno))]
    {
      hide Linked, Entries;
      ghost var es := Entries(list);
      Alone(head, list, i);
      b.dev, b.blockno, b.valid, b.dirty, b.refcnt := dev, blockno, false, false, 1;
      b.handed, b.touched := true, false;
      OneChanged(list, i, es);
    }

    /** The first scan, from the most recently used end. */
    method FindCached(dev: nat, blockno: nat) returns (b: Buf?, ghost i: nat)
      requires Linked(head, list)
      ensures b == null <==> Find(Entries(list), (dev, blockno)).None?
      ensures b != null ==> Find(Entries(list), (dev, blockno)) == Some(i) && At(b, i)
    {
      hide Find;
      ghost var c := Chain(head, list);
      i := 0;
      assert c[i].next == c[i + 1];
      b := head.next;
      while b != head
        invariant 0 <= i <= |list| && b == c[i + 1]
        invariant forall j | 0 <= j < i :: EntryOf(list[j]).key != (dev, blockno)
        decreases |list| - i
      {
        assert c[i + 1] == list[i] && c[i + 1].next == c[i + 2];
        if b.dev == dev && b.blockno == blockno {
          return;
        }
        b, i := b.next, i + 1;
      }
      b := null;
    }

    /** The second scan, from the least recently used end. */
    method FindUnused() returns (b: Buf?, ghost i: nat)
      requires Linked(head, list)
      ensures b == null <==> Victim(Entries(list)).None?
      ensures b != null ==> Victim(Entries(list)) == Some(i) && At(b, i)
    {
      hide Victim;
      ghost var c := Chain(head, list);
      i := |list|;
      assert c[i].next == c[i + 1] && c[i + 1].prev == c[i];
      b := head.prev;
      while b != head
        invariant 0 <= i <= |list| && b == c[i]
        invariant forall j | i <= j < |list| :: !Idle(EntryOf(list[j]))
        decreases i
      {
        assert c[i] == list[i - 1] && c[i].prev == c[i - 1];
        if b.refcnt == 0 && !b.dirty {
          i := i - 1;
          return;
        }
        b, i := b.prev, i - 1;
      }
      b := null;
    }

    /** acquiresleep: waits until the lock is free. */
    method AcquireSleep(b: Buf, ghost i: nat)
      requires Valid() && At(b, i) && b.refcnt > 0 && !b.locked
      modifies b`locked
      ensures Valid() && b.locked && Entries(list) == old(Entries(list))[i := old(EntryOf(b)).(locked := true)]
    {
      hide Linked, Coherent, Entries, CountsAre;
      ghost var es := Entries(list);
      EntryAt(es, i, disk, pinned, clock);
      Alone(head, list, i);
      b.locked := true;
      OneChanged(list, i, es);
      assert Entries(list) == es[i := es[i].(locked := true)];
      WorkKeeps(es, i, es[i].(locked := true), disk, pinned, clock, disk, pinned);
      CountsSame(es, i, es[i].(locked := true), list, users);
    }

    /** The rest of bread: the holder sees the pinned contents of the block, or the disk's. */
    method Fill(b: Buf, ghost i: nat)
      requires Valid() && At(b, i) && b.locked && !b.touched && (b.dev, b.blockno) in disk
      modifies b`data, b`valid
      ensures Valid() && b.valid && b.data == View(disk, pinned, (b.dev, b.blockno))
      ensures Entries(list) == old(Entries(list))[i := old(EntryOf(b)).(valid := true, data := b.data)]
    {
      hide Linked, Coherent, Entries, CountsAre;
      ghost var es := Entries(list);
      EntryAt(es, i, disk, pinned, clock);
      Alone(head, list, i);
      if !b.valid {
        b.data := disk[(b.dev, b.blockno)];
        b.valid := true;
      }
      ghost var e := es[i].(valid := true, data := b.data);
      OneChanged(list, i, es);
      assert Entries(list) == es[i := e];
      WorkKeeps(es, i, e, disk, pinned, clock, disk, pinned);
      CountsSame(es, i, e, list, users);
    }

    /** The holder changes the contents. */
    method Modify(b: Buf, ghost i: nat, data: Block)
      requires Valid() && At(b, i) && b.locked && b.valid
      modifies b`data, b`touched
      ensures Valid() && Entries(list) == old(Entries(list))[i := old(EntryOf(b)).(data := data, touched := true)]
    {
      hide Linked, Coherent, Entries, CountsAre;
      ghost var es := Entries(list);
      EntryAt(es, i, disk, pinned, clock);
      Alone(head, list, i);
      b.data, b.touched := data, true;
      ghost var e := es[i].(data := data, touched := true);
      OneChanged(list, i, es);
      assert Entries(list) == es[i := e];
      WorkKeeps(es, i, e, disk, pinned, clock, disk, pinned);
      CountsSame(es, i, e, list, users);
    }

    /** What log_write does to the buffer: from here on its contents are the block's. */
    method Pin(b: Buf, ghost i: nat)
      requires Valid() && At(b, i) && b.locked && b.valid
      modifies this`pinned, b`dirty, b`touched
      ensures Valid() && pinned == old(pinned)[(b.dev, b.blockno) := b.data]
      ensures Entries(list) == old(Entries(list))[i := PinnedEntry(old(EntryOf(b)))]
    {
      hide Linked, Coherent, Entries, CountsAre;
      ghost var es := Entries(list);
      PinKeeps(es, i, disk, pinned, clock);
      CountsSame(es, i, PinnedEntry(es[i]), list, users);
      Alone(head, list, i);
      b.dirty, b.touched := true, false;
      pinned := pinned[(b.dev, b.blockno) := b.data];
      OneChanged(list, i, es);
    }

    /** False is the panic for a buffer that is not locked. */
    method Bwrite(b: Buf, ghost i: nat) returns (ok: bool)
      requires Valid() && At(b, i) && (b.dev, b.blockno) in disk && b.refcnt > 0
      modifies this`disk, this`pinned, b`valid, b`dirty, b`touched
      ensures Valid() && ok == old(b.locked)
      ensures ok ==> disk == old(disk)[(b.dev, b.blockno) := b.data] && pinned == old(pinned) - {(b.dev, b.blockno)}
      ensures ok ==> Entries(list) == old(Entries(list))[i := Written(old(EntryOf(b)))]
      ensures !ok ==> disk == old(disk) && pinned == old(pinned) && Entries(list) == old(Entries(list))
    {
      hide Linked, Coherent, Entries, CountsAre;
      if !b.locked {
        return false;
      }
      ghost var es := Entries(list);
      WriteKeeps(es, i, disk, pinned, clock);
      CountsSame(es, i, Written(es[i]), list, users);
      Alone(head, list, i);
      disk := disk[(b.dev, b.blockno) := b.data];
      pinned := pinned - {(b.dev, b.blockno)};
      b.valid, b.dirty, b.touched := true, false, false;
      OneChanged(list, i, es);
      ok := true;
    }

    /** releasesleep; whoever changed the buffer has pinned or written it. */
    method ReleaseSleep(b: Buf, ghost i: nat)
      requires Valid() && At(b, i) && b.locked && !b.touched
      modifies b`locked
      ensures Valid() && !b.locked && Entries(list) == old(Entries(list))[i := old(EntryOf(b)).(locked := false)]
    {
      hide Linked, Coherent, Entries, CountsAre;
      ghost var es := Entries(list);
      EntryAt(es, i, disk, pinned, clock);
      Alone(head, list, i);
      b.locked := false;
      OneChanged(list, i, es);
      assert Entries(list) == es[i := es[i].(locked := false)];
      WorkKeeps(es, i, es[i].(locked := false), disk, pinned, clock, disk, pinned);
      CountsSame(es, i, es[i].(locked := false), list, users);
    }

    /** The rest of brelse: one user less, and the last one moves the buffer to the front. */
    method Unref(b: Buf, ghost i: nat)
      requires Valid() && At(b, i) && b.refcnt > 0 && (b.refcnt == 1 ==> !b.locked)
      modifies this`list, this`clock, this`users, b`refcnt, b`stamp,
               head`prev, head`next, list`prev, list`next
      ensures b in old(users) && users == old(users)[b := old(users)[b] - 1]
      ensures Valid() && b.refcnt == old(b.refcnt) - 1 && (old(b.refcnt) == 1 ==> b.stamp == old(clock) + 1)
      ensures old(b.refcnt) > 1 ==> list == old(list) && Entries(list) == old(Entries(list))[i := Dropped(old(EntryOf(b)))]
      ensures old(b.refcnt) == 1 ==> list == ToFront(old(list), i)
      ensures old(b.refcnt) == 1 ==> Entries(list) == Front(old(Entries(list)), i, Released(old(EntryOf(b)), old(clock)))
    {
      hide Linked, Coherent, Entries, Front, ToFront, CountsAre;
      ghost var es := Entries(list);
      UserAt(es, i, list, users);
      Alone(head, list, i);
      if b.refcnt == 1 {
        ReleaseKeeps(es, i, disk, pinned, clock);
        CountsFront(es, i, clock, list, users);
        LastUnref(b, i);
      } else {
        DropKeeps(es, i, disk, pinned, clock);
        CountsOne(es, i, Dropped(es[i]), list, users);
        b.refcnt := b.refcnt - 1;
        OneChanged(list, i, es);
      }
      users := users[b := users[b] - 1];
    }

    method LastUnref(b: Buf, ghost i: nat)
      requires Linked(head, list) && At(b, i)
      modifies this`list, this`clock, b`refcnt, b`stamp,
               head`prev, head`next, list`prev, list`next
      ensures Linked(head, list) && list == ToFront(old(list), i)
      ensures clock == old(clock) + 1 == b.stamp && b.refcnt == 0
      ensures Entries(list) == Front(old(Entries(list)), i, Released(old(EntryOf(b)), old(clock)))
    {
      hide Linked, Entries, Front, ToFront;
      Alone(head, list, i);
      ghost var es := Entries(list);
      b.refcnt := 0;
      MoveToFront(head, b, list, i);
      clock := clock + 1;
      b.stamp := clock;
      FrontChanged(list, i, es);
      list := ToFront(list, i);
    }

    /** False is the panic for a buffer that is not locked. */
    method Brelse(b: Buf, ghost i: nat) returns (ok: bool)
      requires Valid() && At(b, i) && b.refcnt > 0 && !b.touched
      modifies this`list, this`clock, this`users, b`locked, b`refcnt, b`stamp,
               head`prev, head`next, list`prev, list`next
      ensures Valid() && ok == old(b.locked) && disk == old(disk) && pinned == old(pinned)
      ensures ok && old(b.refcnt) == 1 ==> list == ToFront(old(list), i) && b.stamp == old(clock) + 1
      ensures !(ok && old(b.refcnt) == 1) ==> list == old(list)
      ensures ok ==> b.refcnt == old(b.refcnt) - 1 && !b.locked
      ensures ok ==> b in old(users) && users == old(users)[b := old(users)[b] - 1]
      ensures !ok ==> users == old(users)
    {
      hide Linked, Coherent, Entries, Front, ToFront, CountsAre;
      if !b.locked {
        return false;
      }
      ReleaseSleep(b, i);
      Unref(b, i);
      assert EntryOf(b).locked == b.locked;
      ok := true;
    }

    /** When no one holds the block, else the caller waits: the locked buffer of the block, with what
        was last pinned for it, else what the disk has. */
    method Bread(dev: nat, blockno: nat) returns (b: Buf?, ghost i: nat)
      requires Valid() && (dev, blockno) in disk
      requires forall x | x in list && x.dev == dev && x.blockno == blockno :: !x.locked
      modifies list, this`users
      ensures Valid() && disk == old(disk) && pinned == old(pinned) && list == old(list)
      ensures b == null <==> old(Exhausted(dev, blockno))
      ensures b == null ==> users == old(users)
      ensures b != null ==> b in old(users) && users == old(users)[b := old(users)[b] + 1]
      ensures b != null ==> At(b, i) && b.dev == dev && b.blockno == blockno && b.locked && b.refcnt > 0
      ensures b != null ==> b.valid && !b.touched && b.data == View(disk, pinned, (dev, blockno))
    {
      hide Linked, Coherent, Entries, Find, Victim, View, CountsAre, AfterGet, Target, Exhausted;
      ghost var es := Entries(list);
      b, i := Bget(dev, blockno);
      if b != null {
        TargetReady(es, (dev, blockno), disk, pinned, clock);
        assert EntryOf(b) == AfterGet(es, (dev, blockno))[i];
        AcquireSleep(b, i);
        Fill(b, i);
      }
    }
  }

  lemma {:induction false} NoneLinked(head: Buf)
    requires head.prev == head && head.next == head
    ensures Linked(head, [])
  {
  }

  /** As binit finds it: zero. */
  ghost predicate Unused(b: Buf)
    reads b
  {
    !b.handed && !b.valid && !b.dirty && !b.locked && !b.touched && b.refcnt == 0 && b.stamp == 0
    && b.dev == 0 && b.blockno == 0
  }

  lemma {:induction false} FreshCoherent(list: seq<Buf>, disk: Store)
    requires forall b | b in list :: Unused(b)
    ensures Coherent(Entries(list), disk, map[], 0)
  {
    assert forall i | 0 <= i < |list| :: Unused(list[i]);
  }
}
