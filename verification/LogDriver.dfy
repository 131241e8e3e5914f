/** log.c as code: the global `log`, its loops over sectors, and the sector writes they issue.
    `cache` holds the contents of the buffers pinned by B_DIRTY; a clean buffer equals the disk
    (proved for the buffer cache itself in module BufferCache), so it is not represented. */
module LogDriver {
  import opened Bytes
  import opened Sectors
  import opened RedoLog

  datatype EndOutcome = EndPanic | StillBusy | BatchCommitted

  class Log {
    const g: Geometry
    var disk: Disk
    var cache: map<nat, Block>
    var lh: seq<nat>
    var outstanding: nat
    var committing: bool
    ghost var writes: seq<SectorWrite>

    ghost predicate Ok()
      reads this
    {
      g.Valid() && |disk| == g.total && GoodHeader(g, lh)
    }

    /** No buffer of the log area is pinned. */
    ghost predicate LogAreaClean()
      reads this
    {
      forall b | g.start <= b < g.start + g.size :: b !in cache
    }

    constructor (g: Geometry, image: Disk)
      requires g.Valid() && |image| == g.total
      ensures this.g == g && disk == image && cache == map[] && lh == [] && writes == []
      ensures outstanding == 0 && !committing
    {
      this.g, disk, cache, lh, writes := g, image, map[], [], [];
      outstanding, committing := 0, false;
    }

    method Bread(b: nat) returns (data: Block)
      requires b < |disk|
      ensures data == View(disk, cache, b)
    {
      data := if b in cache then cache[b] else disk[b];
    }

    /** One sector write; the buffer is clean afterwards. */
    method Bwrite(b: nat, data: Block)
      requires b < |disk|
      modifies this`disk, this`cache, this`writes
      ensures disk == old(disk)[b := data]
      ensures cache == old(cache) - {b}
      ensures writes == old(writes) + [Write(b, data)]
    {
      disk := disk[b := data];
      cache := cache - {b};
      writes := writes + [Write(b, data)];
    }

    /** Copies log block i to home block lh[i], in order. */
    method InstallTrans()
      requires Ok() && LogAreaClean()
      modifies this`disk, this`cache, this`writes
      ensures writes == old(writes) + Installs(g, old(disk), lh)
      ensures disk == Apply(old(disk), Installs(g, old(disk), lh))
      ensures cache == Unpin(old(cache), lh)
    {
      ghost var ws := Installs(g, disk, lh);
      for tail := 0 to |lh|
        invariant |disk| == g.total
        invariant writes == old(writes) + ws[..tail]
        invariant disk == Apply(old(disk), ws[..tail])
        invariant cache == Unpin(old(cache), lh[..tail])
      {
        InstallPrefix(g, old(disk), lh, tail, g.start + tail + 1);
        var data := Bread(g.start + tail + 1);
        Bwrite(lh[tail], data);
        ApplyStep(old(disk), ws, tail);
        UnpinStep(old(cache), lh, tail);
      }
      assert ws[..|lh|] == ws && lh[..|lh|] == lh;
    }

    /** Copies the pinned buffer of lh[i] to log block i, in order. */
    method WriteLog()
      requires Ok() && LogAreaClean() && Pinned(cache, lh)
      modifies this`disk, this`cache, this`writes
      ensures writes == old(writes) + Appends(g, old(disk), old(cache), lh)
      ensures disk == Apply(old(disk), Appends(g, old(disk), old(cache), lh))
      ensures cache == old(cache)
    {
      ghost var ws := Appends(g, disk, cache, lh);
      for tail := 0 to |lh|
        invariant |disk| == g.total && cache == old(cache)
        invariant writes == old(writes) + ws[..tail]
        invariant disk == Apply(old(disk), ws[..tail])
      {
        var data := Bread(lh[tail]);
        Bwrite(g.start + tail + 1, data);
        ApplyStep(old(disk), ws, tail);
      }
      assert ws[..|lh|] == ws;
    }

    method WriteHead()
      requires Ok() && LogAreaClean()
      modifies this`disk, this`cache, this`writes
      ensures writes == old(writes) + [Write(g.start, Encode(old(disk)[g.start], lh))]
      ensures disk == old(disk)[g.start := Encode(old(disk)[g.start], lh)]
      ensures cache == old(cache)
    {
      var hb := Bread(g.start);
      ghost var h := hb;
      hb := SetWord(hb, 0, |lh|);
      for i := 0 to |lh|
        invariant hb == Entries(h, lh, i)
      {
        hb := SetWord(hb, 1 + i, lh[i]);
      }
      Bwrite(g.start, hb);
      assert cache == old(cache);
    }

    method ReadHead()
      requires GoodDisk(g, disk) && LogAreaClean()
      modifies this`lh
      ensures lh == Header(disk[g.start])
    {
      var hb := Bread(g.start);
      var n := Word(hb, 0);
      lh := [];
      for i := 0 to n
        invariant lh == Header(hb)[..i]
      {
        lh := lh + [Word(hb, 1 + i)];
      }
      assert lh == Header(hb);
    }

    /** The common tail of commit and recovery: install what the header lists, then clear it. */
    method InstallAndClear()
      requires GoodDisk(g, disk) && LogAreaClean() && lh == Header(disk[g.start])
      modifies this`disk, this`cache, this`lh, this`writes
      ensures writes == old(writes) + RecoverWrites(g, old(disk))
      ensures disk == Apply(old(disk), RecoverWrites(g, old(disk)))
      ensures lh == [] && cache == Unpin(old(cache), old(lh))
    {
      ghost var inst := Installs(g, disk, lh);
      InstallTrans();
      InstallPrefix(g, old(disk), lh, |lh|, g.start);
      assert inst[..|lh|] == inst;
      lh := [];
      WriteHead();
      assert RecoverWrites(g, old(disk))[..|inst|] == inst;
    }

    /** Replays the log found on the disk and empties it: exactly the writes of RecoverWrites, so a
        crash after any of them is covered by RecoverPrefix. */
    method RecoverFromLog()
      requires GoodDisk(g, disk) && cache == map[]
      modifies this`disk, this`cache, this`lh, this`writes
      ensures writes == old(writes) + RecoverWrites(g, old(disk))
      ensures disk == Apply(old(disk), RecoverWrites(g, old(disk)))
      ensures Clean(g, disk) && lh == [] && cache == map[]
      ensures forall b | g.Home(b) :: disk[b] == Committed(g, old(disk), b)
    {
      RecoverComplete(g, disk);
      ReadHead();
      InstallAndClear();
    }

    /** write_log and the header write of a commit. */
    method WriteLogAndHead()
      requires Ok() && LogAreaClean() && Pinned(cache, lh)
      modifies this`disk, this`cache, this`writes
      ensures writes == old(writes) + PrepareWrites(g, old(disk), old(cache), lh)
      ensures disk == Apply(old(disk), PrepareWrites(g, old(disk), old(cache), lh))
      ensures cache == old(cache)
    {
      ghost var h := Encode(disk[g.start], lh);
      ghost var prep := PrepareWrites(g, disk, cache, lh);
      WriteLog();
      AppendPrefix(g, old(disk), cache, lh, h, |lh|, g.start);
      assert prep[..|lh|] == Appends(g, old(disk), cache, lh);
      WriteHead();
    }

    /** Log, header, install, clear: exactly the writes of CommitWrites, so a crash after any of
        them is covered by CommitUndone and CommitDone. */
    method Commit()
      requires Ok() && Clean(g, disk) && Pinned(cache, lh)
      modifies this`disk, this`cache, this`lh, this`writes
      ensures writes == old(writes) + CommitWrites(g, old(disk), old(cache), old(lh))
      ensures disk == Apply(old(disk), CommitWrites(g, old(disk), old(cache), old(lh)))
      ensures Clean(g, disk) && lh == [] && cache == map[]
      ensures forall b | g.Home(b) :: disk[b] == View(old(disk), old(cache), b)
    {
      hide Apply, PrepareWrites, RecoverWrites, CommitWrites, Unpin, Header, Count, GoodHeader, Pinned, View;
      PinnedIsLogged(g, cache, lh);
      CommitComplete(g, disk, cache, lh);
      if |lh| > 0 {
        CommitSplit(g, disk, cache, lh);
        WriteLogAndHead();
        InstallAndClear();
      } else {
        CommitNothing(g, disk, cache, lh);
      }
    }

    // ---------- system calls ----------

    /** One turn of begin_op's loop: either the operation is admitted or it sleeps. */
    method BeginOp() returns (admitted: bool)
      modifies this`outstanding
      ensures admitted <==> !committing && |lh| + (old(outstanding) + 1) * MAXOPBLOCKS <= LOGSIZE
      ensures outstanding == old(outstanding) + if admitted then 1 else 0
    {
      if committing {
        admitted := false;
      } else if |lh| + (outstanding + 1) * MAXOPBLOCKS > LOGSIZE {
        admitted := false;
      } else {
        outstanding := outstanding + 1;
        admitted := true;
      }
    }

    /** The caller has changed b's buffer to `data`: record b once and pin the buffer. */
    method LogWrite(b: nat, data: Block) returns (panicked: bool)
      requires Ok() && Pinned(cache, lh) && g.Home(b)
      modifies this`lh, this`cache
      ensures panicked <==> |old(lh)| >= LOGSIZE || |old(lh)| >= g.size - 1 || outstanding < 1
      ensures panicked ==> lh == old(lh) && cache == old(cache)
      ensures !panicked ==> cache == old(cache)[b := data]
      ensures !panicked ==> lh == if b in old(lh) then old(lh) else old(lh) + [b]
      ensures Ok() && Pinned(cache, lh)
    {
      if |lh| >= LOGSIZE || |lh| >= g.size - 1 {
        return true;
      }
      if outstanding < 1 {
        return true;
      }
      var i := 0;
      while i < |lh| && lh[i] != b
        invariant 0 <= i <= |lh|
        invariant b !in lh[..i]
      {
        i := i + 1;
      }
      if i == |lh| {
        assert lh[..i] == lh;
        lh := lh + [b];
      } else {
        lh := lh[i := b];
      }
      cache := cache[b := data];
      panicked := false;
      assert forall k | 0 <= k < |lh| :: k < |old(lh)| ==> lh[k] == old(lh)[k];
    }

    /** The last operation of a batch commits it before end_op returns. */
    method EndOp() returns (r: EndOutcome)
      requires outstanding >= 1
      requires Ok() && Clean(g, disk) && Pinned(cache, lh)
      modifies this`disk, this`cache, this`lh, this`writes, this`outstanding, this`committing
      ensures outstanding == old(outstanding) - 1
      ensures r.EndPanic? <==> old(committing)
      ensures r.BatchCommitted? <==> !old(committing) && old(outstanding) == 1
      ensures r.BatchCommitted? ==>
        && writes == old(writes) + CommitWrites(g, old(disk), old(cache), old(lh))
        && disk == Apply(old(disk), CommitWrites(g, old(disk), old(cache), old(lh)))
        && Clean(g, disk) && lh == [] && cache == map[]
        && forall b | g.Home(b) :: disk[b] == View(old(disk), old(cache), b)
      ensures !r.BatchCommitted? ==>
        disk == old(disk) && cache == old(cache) && lh == old(lh) && writes == old(writes)
      ensures committing == old(committing)
    {
      outstanding := outstanding - 1;
      if committing {
        return EndPanic;
      }
      var doCommit := false;
      if outstanding == 0 {
        doCommit := true;
        committing := true;
      }
      if doCommit {
        Commit();
        committing := false;
        return BatchCommitted;
      }
      return StillBusy;
    }
  }
}
