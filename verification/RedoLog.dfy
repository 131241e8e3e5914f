/** The redo log of log.c over an array of 512-byte sectors.  The writes of a commit and of a
    recovery are spelled out as sequences, so a crash is a prefix.  `Committed` is the reference
    meaning of a disk: what a full recovery would leave in each home block. */
module RedoLog {
  import opened Bytes
  import opened Sectors

  const MAXOPBLOCKS := 10
  const LOGSIZE := 3 * MAXOPBLOCKS

  type Disk = seq<Block>
  type SectorWrite = Write<Block>

  // ---------- the header sector (struct logheader) ----------

  function Count(h: Block): (n: nat) {
    Word(h, 0)
  }

  /** The block numbers a header sector lists. */
  function Header(h: Block): (lh: seq<nat>)
    requires Count(h) <= LOGSIZE
  {
    seq(Count(h), i requires 0 <= i < Count(h) => Word(h, 1 + i))
  }

  /** `n` and the first k entries stored over the old contents of the sector. */
  function Entries(h: Block, lh: seq<uint32>, k: nat): (r: Block)
    requires k <= |lh| <= LOGSIZE
  {
    if k == 0 then SetWord(h, 0, |lh|) else SetWord(Entries(h, lh, k - 1), k, lh[k - 1])
  }

  function Encode(h: Block, lh: seq<uint32>): (r: Block)
    requires |lh| <= LOGSIZE
  {
    Entries(h, lh, |lh|)
  }

  lemma {:induction false} EntriesWord(h: Block, lh: seq<uint32>, k: nat, j: nat)
    requires k <= |lh| <= LOGSIZE && j < WORDS
    ensures Word(Entries(h, lh, k), j) == if j == 0 then |lh| else if j <= k then lh[j - 1] else Word(h, j)
  {
    if k == 0 {
      WordSet(h, 0, |lh|, j);
    } else {
      WordSet(Entries(h, lh, k - 1), k, lh[k - 1], j);
      if j != k {
        EntriesWord(h, lh, k - 1, j);
      }
    }
  }

  /** Reading back a written header gives the list that was written; the words after it are kept. */
  lemma {:induction false} HeaderRoundTrip(h: Block, lh: seq<uint32>)
    requires |lh| <= LOGSIZE
    ensures Count(Encode(h, lh)) == |lh| && Header(Encode(h, lh)) == lh
    ensures forall j | |lh| < j < WORDS :: Word(Encode(h, lh), j) == Word(h, j)
  {
    hide Word, Entries;
    EntriesWord(h, lh, |lh|, 0);
    forall j | |lh| < j < WORDS
      ensures Word(Encode(h, lh), j) == Word(h, j)
    {
      EntriesWord(h, lh, |lh|, j);
    }
    forall i | 0 <= i < |lh| ensures Header(Encode(h, lh))[i] == lh[i] {
      EntriesWord(h, lh, |lh|, i + 1);
    }
  }

  // ---------- the meaning of a disk ----------

  ghost predicate GoodHeader(g: Geometry, lh: seq<nat>) {
    g.Loggable(lh) && |lh| <= LOGSIZE
  }

  ghost predicate GoodDisk(g: Geometry, d: Disk) {
    && g.Valid() && |d| == g.total
    && Count(d[g.start]) <= LOGSIZE
    && GoodHeader(g, Header(d[g.start]))
  }

  ghost predicate Clean(g: Geometry, d: Disk) {
    GoodDisk(g, d) && Header(d[g.start]) == []
  }

  /** What recovery will leave in home block b. */
  ghost function Committed(g: Geometry, d: Disk, b: nat): (r: Block)
    requires GoodDisk(g, d) && g.Home(b)
  {
    Redo(g, d, Header(d[g.start]), b)
  }

  lemma {:induction false} CleanMeansItself(g: Geometry, d: Disk, b: nat)
    requires Clean(g, d) && g.Home(b)
    ensures Committed(g, d, b) == d[b]
  {
    hide Word, Count;
  }

  /** Two disks that mean the same: a recovery of either gives the same home blocks. */
  ghost predicate SameMeaning(g: Geometry, d: Disk, e: Disk)
    requires GoodDisk(g, d) && GoodDisk(g, e)
  {
    forall b | g.Home(b) :: Committed(g, d, b) == Committed(g, e, b)
  }

  // ---------- recovery, crashed or not ----------

  ghost function RecoverWrites(g: Geometry, d: Disk): (ws: seq<SectorWrite>)
    requires GoodDisk(g, d)
    ensures InDisk(d, ws)
  {
    Installs(g, d, Header(d[g.start])) + [Write(g.start, Encode(d[g.start], []))]
  }

  /** Cut recovery after any k of its writes: the meaning of the disk has not changed. */
  lemma {:induction false} RecoverPrefix(g: Geometry, d: Disk, k: nat)
    requires GoodDisk(g, d) && k <= |RecoverWrites(g, d)|
    ensures var e := Apply(d, RecoverWrites(g, d)[..k]); GoodDisk(g, e) && SameMeaning(g, e, d)
  {
    var lh := Header(d[g.start]);
    if k <= |lh| {
      var e := Apply(d, Installs(g, d, lh)[..k]);
      assert RecoverWrites(g, d)[..k] == Installs(g, d, lh)[..k];
      InstallPrefix(g, d, lh, k, g.start);
      forall b | g.Home(b) ensures Committed(g, e, b) == Committed(g, d, b) {
        InstallRedo(g, d, lh, k, b);
      }
    } else {
      RecoverComplete(g, d);
      assert RecoverWrites(g, d)[..k] == RecoverWrites(g, d);
    }
  }

  /** A finished recovery has put the meaning into the home blocks and emptied the log. */
  lemma {:induction false} RecoverComplete(g: Geometry, d: Disk)
    requires GoodDisk(g, d)
    ensures var e := Apply(d, RecoverWrites(g, d));
            Clean(g, e) && forall b | g.Home(b) :: e[b] == Committed(g, d, b)
  {
    var lh := Header(d[g.start]);
    var ws, inst := RecoverWrites(g, d), Installs(g, d, lh);
    assert inst[..|lh|] == inst == ws[..|ws| - 1];
    HeaderRoundTrip(d[g.start], []);
    forall b | g.Home(b) ensures Apply(d, ws)[b] == Committed(g, d, b) {
      InstallPrefix(g, d, lh, |lh|, b);
    }
  }

  /** Crash after ks[0] writes of recovery, reboot, crash after ks[1] writes, and so on. */
  ghost function CrashedRecoveries(g: Geometry, d: Disk, ks: seq<nat>): (e: Disk)
    requires GoodDisk(g, d)
    ensures GoodDisk(g, e)
    decreases |ks|
  {
    if ks == [] then d
    else
      var ws := RecoverWrites(g, d);
      var k := if ks[0] <= |ws| then ks[0] else |ws|;
      RecoverPrefix(g, d, k);
      CrashedRecoveries(g, Apply(d, ws[..k]), ks[1..])
  }

  /** Any number of crashes during recovery, then one that runs to the end: same home blocks
      as a single uninterrupted recovery, and an empty log. */
  lemma {:induction false} RecoveryIdempotent(g: Geometry, d: Disk, ks: seq<nat>)
    requires GoodDisk(g, d)
    ensures var e := CrashedRecoveries(g, d, ks);
            var many := Apply(e, RecoverWrites(g, e));
            var once := Apply(d, RecoverWrites(g, d));
            && Clean(g, many) && Clean(g, once)
            && forall b | g.Home(b) :: many[b] == once[b]
  {
    RecoverComplete(g, d);
    RecoverComplete(g, CrashedRecoveries(g, d, ks));
    CrashesKeepMeaning(g, d, ks);
  }

  lemma {:induction false} CrashesKeepMeaning(g: Geometry, d: Disk, ks: seq<nat>)
    requires GoodDisk(g, d)
    ensures SameMeaning(g, CrashedRecoveries(g, d, ks), d)
    decreases |ks|
  {
    if ks != [] {
      var ws := RecoverWrites(g, d);
      var k := if ks[0] <= |ws| then ks[0] else |ws|;
      RecoverPrefix(g, d, k);
      CrashesKeepMeaning(g, Apply(d, ws[..k]), ks[1..]);
    }
  }

  // ---------- commit, crashed or not ----------

  /** What a home block holds for running operations: its pinned buffer, else the disk. */
  ghost function View(d: Disk, cache: map<nat, Block>, b: nat): (r: Block)
    requires b < |d|
  {
    if b in cache then cache[b] else d[b]
  }

  ghost predicate Pinned(cache: map<nat, Block>, lh: seq<nat>) {
    && (forall i | 0 <= i < |lh| :: lh[i] in cache)
    && (forall b | b in cache :: b in lh)
  }

  /** write_log and the header write: up to and including the commit point. */
  ghost function PrepareWrites(g: Geometry, d: Disk, cache: map<nat, Block>, lh: seq<nat>): (ws: seq<SectorWrite>)
    requires g.Valid() && |d| == g.total && GoodHeader(g, lh) && Pinned(cache, lh)
    ensures InDisk(d, ws) && |ws| == |lh| + 1
  {
    Appends(g, d, cache, lh) + [Write(g.start, Encode(d[g.start], lh))]
  }

  /** After the header write the disk already means the new contents. */
  lemma {:induction false} Prepared(g: Geometry, d: Disk, cache: map<nat, Block>, lh: seq<nat>)
    requires g.Valid() && |d| == g.total && GoodHeader(g, lh) && Pinned(cache, lh)
    ensures var e := Apply(d, PrepareWrites(g, d, cache, lh));
            && GoodDisk(g, e) && Header(e[g.start]) == lh
            && forall b | g.Home(b) :: Committed(g, e, b) == View(d, cache, b)
  {
    var ws := PrepareWrites(g, d, cache, lh);
    var h := Encode(d[g.start], lh);
    assert ws[..|ws|] == ws;
    HeaderRoundTrip(d[g.start], lh);
    AppendPrefix(g, d, cache, lh, h, |lh| + 1, g.start);
    forall b | g.Home(b) ensures Redo(g, Apply(d, ws), lh, b) == View(d, cache, b) {
      AppendRedo(g, d, cache, lh, h, b);
    }
  }

  ghost function CommitWrites(g: Geometry, d: Disk, cache: map<nat, Block>, lh: seq<nat>): (ws: seq<SectorWrite>)
    requires g.Valid() && |d| == g.total && GoodHeader(g, lh) && Pinned(cache, lh)
    ensures InDisk(d, ws)
  {
    if lh == [] then []
    else
      Prepared(g, d, cache, lh);
      PrepareWrites(g, d, cache, lh) + RecoverWrites(g, Apply(d, PrepareWrites(g, d, cache, lh)))
  }

  lemma {:induction false} CommitSplit(g: Geometry, d: Disk, cache: map<nat, Block>, lh: seq<nat>)
    requires g.Valid() && |d| == g.total && GoodHeader(g, lh) && Pinned(cache, lh) && lh != []
    ensures var logged := Apply(d, PrepareWrites(g, d, cache, lh));
            && GoodDisk(g, logged) && Header(logged[g.start]) == lh
            && CommitWrites(g, d, cache, lh) == PrepareWrites(g, d, cache, lh) + RecoverWrites(g, logged)
            && Apply(d, CommitWrites(g, d, cache, lh)) == Apply(logged, RecoverWrites(g, logged))
  {
    Prepared(g, d, cache, lh);
    ApplyConcat(d, PrepareWrites(g, d, cache, lh), RecoverWrites(g, Apply(d, PrepareWrites(g, d, cache, lh))));
  }

  lemma {:induction false} PinnedIsLogged(g: Geometry, cache: map<nat, Block>, lh: seq<nat>)
    requires GoodHeader(g, lh) && Pinned(cache, lh)
    ensures forall b | g.start <= b < g.start + g.size :: b !in cache
    ensures Unpin(cache, lh) == map[]
  {
  }

  lemma {:induction false} CommitNothing(g: Geometry, d: Disk, cache: map<nat, Block>, lh: seq<nat>)
    requires g.Valid() && |d| == g.total && GoodHeader(g, lh) && Pinned(cache, lh) && lh == []
    ensures cache == map[] && CommitWrites(g, d, cache, lh) == [] && Apply(d, CommitWrites(g, d, cache, lh)) == d
  {
  }

  /** Cut a commit before its header write: every home block still means its old contents. */
  lemma {:induction false} CommitUndone(g: Geometry, d: Disk, cache: map<nat, Block>, lh: seq<nat>, k: nat)
    requires Clean(g, d) && GoodHeader(g, lh) && Pinned(cache, lh)
    requires k <= |lh|
    ensures k <= |CommitWrites(g, d, cache, lh)|
    ensures var e := Apply(d, CommitWrites(g, d, cache, lh)[..k]);
            Clean(g, e) && forall b | g.Home(b) :: Committed(g, e, b) == d[b] == e[b]
  {
    if lh != [] {
      var h := Encode(d[g.start], lh);
      assert CommitWrites(g, d, cache, lh)[..k] == PrepareWrites(g, d, cache, lh)[..k];
      AppendPrefix(g, d, cache, lh, h, k, g.start);
      forall b | g.Home(b) ensures Apply(d, PrepareWrites(g, d, cache, lh)[..k])[b] == d[b] {
        AppendPrefix(g, d, cache, lh, h, k, b);
      }
    }
  }

  /** From the header write on, a commit is a recovery of the disk it has prepared. */
  lemma {:induction false} CommitTail(g: Geometry, d: Disk, cache: map<nat, Block>, lh: seq<nat>, m: nat)
    requires Clean(g, d) && GoodHeader(g, lh) && Pinned(cache, lh) && lh != []
    requires |lh| + 1 + m <= |CommitWrites(g, d, cache, lh)|
    ensures var logged := Apply(d, PrepareWrites(g, d, cache, lh));
            && GoodDisk(g, logged) && m <= |RecoverWrites(g, logged)|
            && Apply(d, CommitWrites(g, d, cache, lh)[..|lh| + 1 + m]) == Apply(logged, RecoverWrites(g, logged)[..m])
  {
    hide Header, Count, Word, Apply, Encode, PrepareWrites, RecoverWrites, CommitWrites, Committed, GoodHeader, Pinned;
    CommitSplit(g, d, cache, lh);
    var prep := PrepareWrites(g, d, cache, lh);
    var rest := RecoverWrites(g, Apply(d, prep));
    assert (prep + rest)[..|lh| + 1 + m] == prep + rest[..m];
    ApplyConcat(d, prep, rest[..m]);
  }

  /** Cut a commit at or after its header write: every home block means its new contents, the
      whole batch and nothing else. */
  lemma {:induction false} CommitDone(g: Geometry, d: Disk, cache: map<nat, Block>, lh: seq<nat>, k: nat)
    requires Clean(g, d) && GoodHeader(g, lh) && Pinned(cache, lh)
    requires |lh| < k <= |CommitWrites(g, d, cache, lh)|
    ensures var e := Apply(d, CommitWrites(g, d, cache, lh)[..k]);
            GoodDisk(g, e) && forall b | g.Home(b) :: Committed(g, e, b) == View(d, cache, b)
  {
    hide Header, Count, Word;
    var m := k - (|lh| + 1);
    Prepared(g, d, cache, lh);
    CommitTail(g, d, cache, lh, m);
    RecoverPrefix(g, Apply(d, PrepareWrites(g, d, cache, lh)), m);
  }

  /** A commit that ran to its end needs no recovery. */
  lemma {:induction false} CommitComplete(g: Geometry, d: Disk, cache: map<nat, Block>, lh: seq<nat>)
    requires Clean(g, d) && GoodHeader(g, lh) && Pinned(cache, lh)
    ensures var e := Apply(d, CommitWrites(g, d, cache, lh));
            Clean(g, e) && forall b | g.Home(b) :: e[b] == View(d, cache, b)
  {
    if lh != [] {
      CommitSplit(g, d, cache, lh);
      Prepared(g, d, cache, lh);
      RecoverComplete(g, Apply(d, PrepareWrites(g, d, cache, lh)));
    }
  }
}
