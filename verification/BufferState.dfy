/** The buffer cache of bio.c on values: what must hold of the buffers in list order, and what looking
    a block up does to them. */
module BufferState {
  import opened Bytes
  import opened Options

  type Key = (nat, nat)

  /** A buffer without its links; key is (dev, blockno). */
  datatype Entry = Entry(key: Key, valid: bool, dirty: bool, locked: bool, refcnt: nat, data: Block,
                         handed: bool, touched: bool, stamp: nat)

  type Store = map<Key, Block>

  /** What a reader of the block must see: the pinned contents, else the disk's. */
  function View(disk: Store, pinned: Store, k: Key): (b: Block)
    requires k in disk
  {
    if k in pinned then pinned[k] else disk[k]
  }

  predicate EntryOK(e: Entry, disk: Store, pinned: Store, clock: nat) {
    && (!e.handed ==> e.key == (0, 0) && !e.valid && !e.dirty && !e.locked && e.refcnt == 0)
    && (e.locked ==> e.refcnt > 0)
    && (e.touched ==> e.locked && e.valid)
    && (e.dirty ==> e.valid)
    && (e.valid ==> e.key in disk)
    && (e.handed ==> (e.dirty <==> e.key in pinned))
    && (e.valid && !e.touched ==> e.data == View(disk, pinned, e.key))
    && e.stamp <= clock
  }

  /** Among buffers that have been handed out, one per block. */
  predicate Unique(es: seq<Entry>) {
    forall i, j | 0 <= i < j < |es| && es[i].handed && es[j].handed :: es[i].key != es[j].key
  }

  /** A buffer handed out for block 0 of device 0, the label every buffer is born with, comes before
      the buffers never handed out. */
  predicate FreshBehind(es: seq<Entry>) {
    forall i, j | 0 <= i < |es| && 0 <= j < |es| && es[i].handed && es[i].key == (0, 0) && !es[j].handed :: i < j
  }

  /** Most recently released first; buffers never released last. */
  predicate ByRelease(es: seq<Entry>) {
    forall i, j | 0 <= i < j < |es| :: es[i].stamp > es[j].stamp || es[i].stamp == es[j].stamp == 0
  }

  predicate PinnedHere(es: seq<Entry>, pinned: Store) {
    forall k | k in pinned :: exists i | 0 <= i < |es| :: es[i].handed && es[i].key == k
  }

  predicate Coherent(es: seq<Entry>, disk: Store, pinned: Store, clock: nat) {
    && (forall i | 0 <= i < |es| :: EntryOK(es[i], disk, pinned, clock))
    && Unique(es) && FreshBehind(es) && ByRelease(es) && PinnedHere(es, pinned)
  }

  // ---------- looking a block up ----------

  predicate Idle(e: Entry) {
    e.refcnt == 0 && !e.dirty
  }

  /** The buffer the first scan stops at. */
  function Find(es: seq<Entry>, k: Key): (r: Option<nat>)
    ensures r.Some? ==> r.value < |es| && es[r.value].key == k && forall j | 0 <= j < r.value :: es[j].key != k
    ensures r.None? ==> forall j | 0 <= j < |es| :: es[j].key != k
  {
    if es == [] then None
    else if es[0].key == k then Some(0)
    else
      var r := Find(es[1..], k);
      assert forall j | 1 <= j < |es| :: es[j] == es[1..][j - 1];
      if r.None? then None else Some(r.value + 1)
  }

  /** The buffer the second scan, from the other end, stops at. */
  function Victim(es: seq<Entry>): (r: Option<nat>)
    ensures r.Some? ==> r.value < |es| && Idle(es[r.value]) && forall j | r.value < j < |es| :: !Idle(es[j])
    ensures r.None? ==> forall j | 0 <= j < |es| :: !Idle(es[j])
  {
    if es == [] then None
    else if Idle(es[|es| - 1]) then Some(|es| - 1)
    else Victim(es[..|es| - 1])
  }

  function Hit(e: Entry): (r: Entry) {
    e.(refcnt := e.refcnt + 1, handed := true)
  }

  function Recycled(e: Entry, k: Key): (r: Entry) {
    e.(key := k, valid := false, dirty := false, refcnt := 1, handed := true, touched := false)
  }

  /** bget: the position of the buffer returned, None for the panic. */
  function Target(es: seq<Entry>, k: Key): (r: Option<nat>)
    ensures r.Some? ==> r.value < |es|
  {
    if Find(es, k).Some? then Find(es, k) else Victim(es)
  }

  function AfterGet(es: seq<Entry>, k: Key): (r: seq<Entry>) {
    if Find(es, k).Some? then
      var i := Find(es, k).value; es[i := Hit(es[i])]
    else if Victim(es).Some? then
      var i := Victim(es).value; es[i := Recycled(es[i], k)]
    else es
  }

  // ---------- coherence is kept ----------

  lemma {:induction false} PinnedKept(es: seq<Entry>, i: nat, e: Entry, pinned: Store, pinned': Store)
    requires PinnedHere(es, pinned) && i < |es| && e.key == es[i].key && (es[i].handed ==> e.handed)
    requires forall k | k in pinned' :: k in pinned || (e.handed && k == e.key)
    ensures PinnedHere(es[i := e], pinned')
  {
    var es' := es[i := e];
    forall k | k in pinned'
      ensures exists j | 0 <= j < |es'| :: es'[j].handed && es'[j].key == k
    {
      if e.handed && k == e.key {
        assert es'[i].handed && es'[i].key == k;
      } else {
        var j :| 0 <= j < |es| && es[j].handed && es[j].key == k;
        assert es'[j].handed && es'[j].key == k;
      }
    }
  }

  /** Work on one buffer that has been handed out, affecting its own block only. */
  lemma {:induction false} WorkKeeps(es: seq<Entry>, i: nat, e: Entry, disk: Store, pinned: Store, clock: nat,
                                     disk': Store, pinned': Store)
    requires Coherent(es, disk, pinned, clock) && i < |es|
    requires es[i].handed && e.handed && e.key == es[i].key && e.stamp == es[i].stamp
    requires forall k | k in disk.Keys + disk'.Keys :: k in disk && k in disk' && (k != e.key ==> disk'[k] == disk[k])
    requires forall k | k in pinned.Keys + pinned'.Keys ::
               k != e.key ==> k in pinned && k in pinned' && pinned'[k] == pinned[k]
    requires EntryOK(e, disk', pinned', clock)
    ensures Coherent(es[i := e], disk', pinned', clock)
  {
    var es' := es[i := e];
    forall j | 0 <= j < |es'|
      ensures EntryOK(es'[j], disk', pinned', clock)
    {
      if j != i {
        assert EntryOK(es[j], disk, pinned, clock) && es'[j] == es[j];
        assert es[j].handed ==> es[j].key != e.key;
      }
    }
    PinnedKept(es, i, e, pinned, pinned');
  }

  function Written(e: Entry): (r: Entry) {
    e.(valid := true, dirty := false, touched := false)
  }

  /** bwrite puts the buffer on the disk and unpins it. */
  lemma {:induction false} WriteKeeps(es: seq<Entry>, i: nat, disk: Store, pinned: Store, clock: nat)
    requires Coherent(es, disk, pinned, clock) && i < |es| && es[i].refcnt > 0 && es[i].key in disk
    ensures Coherent(es[i := Written(es[i])], disk[es[i].key := es[i].data], pinned - {es[i].key}, clock)
  {
    assert EntryOK(es[i], disk, pinned, clock);
    hide Coherent;
    WorkKeeps(es, i, Written(es[i]), disk, pinned, clock, disk[es[i].key := es[i].data], pinned - {es[i].key});
  }

  function PinnedEntry(e: Entry): (r: Entry) {
    e.(dirty := true, touched := false)
  }

  /** log_write makes the buffer's contents the block's, and keeps it in memory. */
  lemma {:induction false} PinKeeps(es: seq<Entry>, i: nat, disk: Store, pinned: Store, clock: nat)
    requires Coherent(es, disk, pinned, clock) && i < |es| && es[i].locked && es[i].valid
    ensures Coherent(es[i := PinnedEntry(es[i])], disk, pinned[es[i].key := es[i].data], clock)
  {
    assert EntryOK(es[i], disk, pinned, clock);
    hide Coherent;
    WorkKeeps(es, i, PinnedEntry(es[i]), disk, pinned, clock, disk, pinned[es[i].key := es[i].data]);
  }

  lemma {:induction false} HitKeeps(es: seq<Entry>, k: Key, disk: Store, pinned: Store, clock: nat)
    requires Coherent(es, disk, pinned, clock) && Find(es, k).Some?
    ensures Coherent(AfterGet(es, k), disk, pinned, clock)
  {
    hide Find;
    var i := Find(es, k).value;
    var e := Hit(es[i]);
    var es' := es[i := e];
    assert EntryOK(es[i], disk, pinned, clock);
    FirstIsTheOne(es, k, disk, pinned, clock);
    if !es[i].handed {
      NotPinned(es, k, pinned);
    }
    forall j | 0 <= j < |es'|
      ensures EntryOK(es'[j], disk, pinned, clock)
    {
      assert j != i ==> es'[j] == es[j] && EntryOK(es[j], disk, pinned, clock);
    }
    PinnedKept(es, i, e, pinned, pinned);
  }

  lemma {:induction false} NotPinned(es: seq<Entry>, k: Key, pinned: Store)
    requires PinnedHere(es, pinned) && forall j | 0 <= j < |es| && es[j].handed :: es[j].key != k
    ensures k !in pinned
  {
  }

  /** If a buffer for the block is out, the first scan finds that one. */
  lemma {:induction false} FirstIsTheOne(es: seq<Entry>, k: Key, disk: Store, pinned: Store, clock: nat)
    requires Coherent(es, disk, pinned, clock) && Find(es, k).Some?
    ensures forall j | 0 <= j < |es| && es[j].handed && es[j].key == k :: j == Find(es, k).value
  {
    hide Find;
    var i := Find(es, k).value;
    forall j | 0 <= j < |es| && es[j].handed && es[j].key == k
      ensures j == i
    {
      assert EntryOK(es[i], disk, pinned, clock);
      if es[i].handed {
        assert j < i || i < j || i == j;
      }
    }
  }

  lemma {:induction false} RecycleKeeps(es: seq<Entry>, k: Key, disk: Store, pinned: Store, clock: nat)
    requires Coherent(es, disk, pinned, clock) && Find(es, k).None? && Victim(es).Some?
    ensures Coherent(AfterGet(es, k), disk, pinned, clock)
  {
    hide Find, Victim;
    var i := Victim(es).value;
    var e := Recycled(es[i], k);
    var es' := es[i := e];
    assert EntryOK(es[i], disk, pinned, clock);
    NotPinned(es, k, pinned);
    forall j | 0 <= j < |es'|
      ensures EntryOK(es'[j], disk, pinned, clock)
    {
      assert j != i ==> es'[j] == es[j] && EntryOK(es[j], disk, pinned, clock);
    }
    forall p | p in pinned
      ensures exists j | 0 <= j < |es'| :: es'[j].handed && es'[j].key == p
    {
      var j :| 0 <= j < |es| && es[j].handed && es[j].key == p;
      assert j != i;
      assert es'[j].handed && es'[j].key == p;
    }
    assert Unique(es') && FreshBehind(es');
  }

  /** bget keeps the cache coherent, pins nothing and unpins nothing. */
  lemma {:induction false} GetKeeps(es: seq<Entry>, k: Key, disk: Store, pinned: Store, clock: nat)
    requires Coherent(es, disk, pinned, clock)
    ensures Coherent(AfterGet(es, k), disk, pinned, clock)
  {
    hide Find, Victim;
    if Find(es, k).Some? {
      HitKeeps(es, k, disk, pinned, clock);
    } else if Victim(es).Some? {
      RecycleKeeps(es, k, disk, pinned, clock);
    }
  }

  /** A recycled buffer was unused and clean, and of those the one released longest ago. */
  lemma {:induction false} LeastRecentlyReleased(es: seq<Entry>, disk: Store, pinned: Store, clock: nat)
    requires Coherent(es, disk, pinned, clock) && Victim(es).Some?
    ensures Idle(es[Victim(es).value])
    ensures forall j | 0 <= j < |es| && Idle(es[j]) && j != Victim(es).value ::
              es[Victim(es).value].stamp < es[j].stamp || es[Victim(es).value].stamp == 0
  {
    hide Victim;
    var i := Victim(es).value;
    forall j | 0 <= j < |es| && Idle(es[j]) && j != i
      ensures es[i].stamp < es[j].stamp || es[i].stamp == 0
    {
      assert j < i;
    }
  }

  /** The buffer that bget returns carries the block's label, and is locked only if it was found
      locked. */
  lemma {:induction false} TargetReady(es: seq<Entry>, k: Key, disk: Store, pinned: Store, clock: nat)
    requires Coherent(es, disk, pinned, clock) && Target(es, k).Some?
    ensures var i := Target(es, k).value; var e := AfterGet(es, k)[i];
            e.key == k && e.refcnt > 0 && e.handed && (e.touched ==> e.locked) && (e.locked ==> es[i].key == k && es[i].locked)
  {
    hide Find, Victim;
    var i := Target(es, k).value;
    assert EntryOK(es[i], disk, pinned, clock);
  }

  /** A pinned block stays in memory whatever block is asked for next: its buffer is never recycled. */
  lemma {:induction false} PinnedSurvives(es: seq<Entry>, p: Key, k: Key, disk: Store, pinned: Store, clock: nat)
    requires Coherent(es, disk, pinned, clock) && p in pinned
    ensures exists i | 0 <= i < |es| ::
              && es[i].key == p && es[i].dirty && (!es[i].touched ==> es[i].data == pinned[p])
              && AfterGet(es, k)[i].key == p && AfterGet(es, k)[i].dirty && AfterGet(es, k)[i].data == es[i].data
  {
    hide Find, Victim;
    var i :| 0 <= i < |es| && es[i].handed && es[i].key == p;
    assert EntryOK(es[i], disk, pinned, clock);
    assert AfterGet(es, k)[i].key == p;
  }

  // ---------- releasing ----------

  function Front(es: seq<Entry>, i: nat, e: Entry): (r: seq<Entry>)
    requires i < |es|
  {
    [e] + (es[..i] + es[i + 1..])
  }

  function Released(e: Entry, clock: nat): (r: Entry) {
    e.(refcnt := 0, stamp := clock + 1)
  }

  function Dropped(e: Entry): (r: Entry)
    requires e.refcnt > 0
  {
    e.(refcnt := e.refcnt - 1)
  }

  /** Another user remains. */
  lemma {:induction false} DropKeeps(es: seq<Entry>, i: nat, disk: Store, pinned: Store, clock: nat)
    requires Coherent(es, disk, pinned, clock) && i < |es| && es[i].refcnt > 1
    ensures Coherent(es[i := Dropped(es[i])], disk, pinned, clock)
  {
    assert EntryOK(es[i], disk, pinned, clock);
    hide Coherent;
    WorkKeeps(es, i, Dropped(es[i]), disk, pinned, clock, disk, pinned);
  }

  /** Where the entry now at position j was before. */
  function Was(i: nat, j: nat): (r: nat) {
    if j == 0 then i else if j <= i then j - 1 else j
  }

  /** The last user lets go: the buffer moves to the front. */
  lemma {:induction false} ReleaseKeeps(es: seq<Entry>, i: nat, disk: Store, pinned: Store, clock: nat)
    requires Coherent(es, disk, pinned, clock) && i < |es| && es[i].refcnt == 1 && !es[i].locked
    ensures Coherent(Front(es, i, Released(es[i], clock)), disk, pinned, clock + 1)
  {
    hide Coherent, EntryOK, Unique, FreshBehind, ByRelease, PinnedHere, Released;
    var e := Released(es[i], clock);
    var r := Front(es, i, e);
    assert forall j | 0 <= j < |r| :: r[j] == if j == 0 then e else es[Was(i, j)];
    forall j | 0 <= j < |r|
      ensures EntryOK(r[j], disk, pinned, clock + 1) && r[j].key == es[Was(i, j)].key
      ensures r[j].handed == es[Was(i, j)].handed
    {
      LaterOK(es, Was(i, j), disk, pinned, clock);
    }
    LaterOK(es, i, disk, pinned, clock);
    FrontKeeps(es, i, r, disk, pinned, clock);
  }

  lemma {:induction false} LaterOK(es: seq<Entry>, j: nat, disk: Store, pinned: Store, clock: nat)
    requires Coherent(es, disk, pinned, clock) && j < |es|
    ensures EntryOK(es[j], disk, pinned, clock + 1)
    ensures !es[j].locked ==> EntryOK(Released(es[j], clock), disk, pinned, clock + 1)
    ensures var e := Released(es[j], clock);
            e.key == es[j].key && e.handed == es[j].handed && e.stamp == clock + 1
  {
    assert EntryOK(es[j], disk, pinned, clock);
  }

  lemma {:induction false} FrontKeeps(es: seq<Entry>, i: nat, r: seq<Entry>, disk: Store, pinned: Store, clock: nat)
    requires Coherent(es, disk, pinned, clock) && Moved(es, i, r) && es[i].refcnt > 0 && r[0].stamp == clock + 1
    requires forall j | 0 < j < |r| :: r[j] == es[Was(i, j)]
    requires forall j | 0 <= j < |r| :: EntryOK(r[j], disk, pinned, clock + 1)
    ensures Coherent(r, disk, pinned, clock + 1)
  {
    hide EntryOK;
    FrontUnique(es, i, r);
    FrontFresh(es, i, r, disk, pinned, clock);
    FrontOrder(es, i, r, disk, pinned, clock);
    FrontPinned(es, i, r, pinned);
  }

  predicate Moved(es: seq<Entry>, i: nat, r: seq<Entry>) {
    i < |es| == |r|
    && forall j | 0 <= j < |r| :: r[j].key == es[Was(i, j)].key && r[j].handed == es[Was(i, j)].handed
  }

  lemma {:induction false} FrontUnique(es: seq<Entry>, i: nat, r: seq<Entry>)
    requires Unique(es) && Moved(es, i, r)
    ensures Unique(r)
  {
    forall j, l | 0 <= j < l < |r| && r[j].handed && r[l].handed
      ensures r[j].key != r[l].key
    {
      assert Was(i, j) < Was(i, l) || Was(i, l) < Was(i, j);
    }
  }

  lemma {:induction false} FrontFresh(es: seq<Entry>, i: nat, r: seq<Entry>, disk: Store, pinned: Store, clock: nat)
    requires Coherent(es, disk, pinned, clock) && Moved(es, i, r) && es[i].refcnt > 0
    ensures FreshBehind(r)
  {
    assert EntryOK(es[i], disk, pinned, clock);
    forall j, l | 0 <= j < |r| && 0 <= l < |r| && r[j].handed && r[j].key == (0, 0) && !r[l].handed
      ensures j < l
    {
      assert Was(i, j) < Was(i, l);
    }
  }

  lemma {:induction false} FrontOrder(es: seq<Entry>, i: nat, r: seq<Entry>, disk: Store, pinned: Store, clock: nat)
    requires Coherent(es, disk, pinned, clock) && i < |es| == |r| && r[0].stamp == clock + 1
    requires forall j | 0 < j < |r| :: r[j] == es[Was(i, j)]
    ensures ByRelease(r)
  {
    forall j, l | 0 <= j < l < |r|
      ensures r[j].stamp > r[l].stamp || r[j].stamp == r[l].stamp == 0
    {
      assert EntryOK(es[Was(i, l)], disk, pinned, clock);
      if j > 0 {
        assert Was(i, j) < Was(i, l);
      }
    }
  }

  lemma {:induction false} FrontPinned(es: seq<Entry>, i: nat, r: seq<Entry>, pinned: Store)
    requires PinnedHere(es, pinned) && Moved(es, i, r)
    ensures PinnedHere(r, pinned)
  {
    forall k | k in pinned
      ensures exists j | 0 <= j < |r| :: r[j].handed && r[j].key == k
    {
      var j :| 0 <= j < |es| && es[j].handed && es[j].key == k;
      var l := if j == i then 0 else if j < i then j + 1 else j;
      assert Was(i, l) == j;
      assert r[l].handed && r[l].key == k;
    }
  }
}
