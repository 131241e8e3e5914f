/** The code of log.c takes the steps of the protocol, and a block that was written and committed is
    on the disk from then on. */
module LogRefinement {
  import opened Bytes
  import opened Sectors
  import opened RedoLog
  import opened LogProtocol
  import LogDriver

  // ---------- what a committed write leaves ----------

  /** Event p writes data to block b and no later one writes there. */
  ghost predicate LastPut(h: seq<Event>, p: nat, b: nat, data: Block) {
    && p < |h| && h[p].Put? && h[p].block == b && h[p].data == data
    && forall q | p < q < |h| && h[q].Put? :: h[q].block != b
  }

  lemma {:induction false} ReplayLast(init: Disk, h: seq<Event>, p: nat, b: nat, data: Block)
    requires b < |init| && LastPut(h, p, b, data)
    ensures Replay(init, h, b) == data
  {
    if p < |h| - 1 {
      ReplayLast(init, h[..|h| - 1], p, b, data);
    }
  }

  lemma {:induction false} ReplayNever(init: Disk, h: seq<Event>, b: nat)
    requires b < |init| && forall q | 0 <= q < |h| && h[q].Put? :: h[q].block != b
    ensures Replay(init, h, b) == init[b]
  {
    if h != [] {
      ReplayNever(init, h[..|h| - 1], b);
    }
  }

  /** Steps that keep event p the last write to b: no other write to b, and no crash that could undo it. */
  ghost predicate Spares(l: Ledger, st: Step, p: nat, b: nat) {
    && (st.LogWrite? ==> st.b != b)
    && (st.Crash? ==> p < l.durable)
  }

  lemma {:induction false} StepSpares(l: Ledger, st: Step, p: nat, b: nat, data: Block)
    requires Sane(l) && LastPut(l.events, p, b, data) && Spares(l, st, p, b)
    ensures LastPut(Enter(l, st).events, p, b, data)
    ensures p < l.durable || st.CommitReturn? ==> p < Enter(l, st).durable
  {
    hide Blocks;
  }

  /** Step j writes data to b; up to step m nothing else is written there, and there is no crash before
      the commit returns in step k. */
  ghost predicate Undisturbed(steps: seq<Step>, j: nat, k: nat, m: nat, b: nat, data: Block) {
    && j < k < |steps| && j < m <= |steps|
    && steps[j].LogWrite? && steps[j].b == b && steps[j].data == data && steps[k].CommitReturn?
    && (forall q | j < q < m && steps[q].LogWrite? :: steps[q].b != b)
    && (forall q | j < q < k :: !steps[q].Crash?)
  }

  lemma {:induction false} PutStays(steps: seq<Step>, j: nat, k: nat, m: nat, b: nat, data: Block)
    requires Undisturbed(steps, j, k, m, b, data) && steps[j].i < |Account(steps[..j]).ids|
    ensures var p, l := |Account(steps[..j]).events|, Account(steps[..m]);
            LastPut(l.events, p, b, data) && (m > k ==> p < l.durable)
    decreases m
  {
    hide Account, Enter, LastPut;
    var p, l := |Account(steps[..j]).events|, Account(steps[..m - 1]);
    AccountStep(steps, m - 1);
    if m == j + 1 {
      PutMade(l, steps[j]);
    } else {
      PutStays(steps, j, k, m - 1, b, data);
      StepSpares(l, steps[m - 1], p, b, data);
    }
  }

  lemma {:induction false} AccountStep(steps: seq<Step>, m: nat)
    requires m < |steps|
    ensures Account(steps[..m + 1]) == Enter(Account(steps[..m]), steps[m])
  {
    hide Enter;
    assert steps[..m + 1][..m] == steps[..m];
  }

  lemma {:induction false} PutMade(l: Ledger, st: Step)
    requires Sane(l) && st.LogWrite? && st.i < |l.ids|
    ensures LastPut(Enter(l, st).events, |l.events|, st.b, st.data)
  {
  }

  /** A write that was committed survives: take any run in which step j logs data for block b and the
      commit returns in step k without a crash between.  As long as nothing else is logged for b, a
      crash at any later moment and recovery give a disk with data at b, and right after the commit
      the disk itself has it. */
  lemma {:induction false} CommittedWrite(g: Geometry, init: Disk, run: seq<Sys>, steps: seq<Step>, j: nat, k: nat,
                                          m: nat)
    requires IsRun(g, init, run, steps) && k < m < |run| && j < k && steps[j].LogWrite?
    requires Undisturbed(steps, j, k, m, steps[j].b, steps[j].data)
    ensures GoodDisk(g, run[m].disk) && g.Home(steps[j].b)
    ensures Apply(run[m].disk, RecoverWrites(g, run[m].disk))[steps[j].b] == steps[j].data
    ensures m == k + 1 ==> run[m].disk[steps[j].b] == steps[j].data
  {
    hide Account, Blocks, Replay, Apply, RecoverWrites, Do, Header, Count;
    HistoryIsAccount(g, init, run, steps, j);
    PutStays(steps, j, k, m, steps[j].b, steps[j].data);
    CrashAtomicity(g, init, run, steps, m);
    ReplayLast(init, Durable(steps[..m]), |Account(steps[..j]).events|, steps[j].b, steps[j].data);
    if m == k + 1 {
      CleanAfterCommit(g, init, run, steps, k, steps[j].b);
    }
  }

  lemma {:induction false} CleanAfterCommit(g: Geometry, init: Disk, run: seq<Sys>, steps: seq<Step>, k: nat, b: nat)
    requires IsRun(g, init, run, steps) && k < |steps| && steps[k].CommitReturn? && g.Home(b)
    ensures GoodDisk(g, run[k + 1].disk)
    ensures run[k + 1].disk[b] == Apply(run[k + 1].disk, RecoverWrites(g, run[k + 1].disk))[b]
  {
    hide Replay, Apply, RecoverWrites, Header, Count, Legal, Open;
    RunKeepsInv(g, init, run, steps, k + 1);
    RecoverComplete(g, run[k + 1].disk);
    CleanMeansItself(g, run[k + 1].disk, b);
  }

  lemma {:induction false} NeverWritten(steps: seq<Step>, m: nat, b: nat)
    requires m <= |steps| && forall q | 0 <= q < m && steps[q].LogWrite? :: steps[q].b != b
    ensures forall q | 0 <= q < |Account(steps[..m]).events| && Account(steps[..m]).events[q].Put? ::
              Account(steps[..m]).events[q].block != b
  {
    hide Blocks, Account;
    if m == 0 {
      assert steps[..0] == [] && Account([]).events == [] by {
        AccountNone();
      }
    } else {
      NeverWritten(steps, m - 1, b);
      AccountStep(steps, m - 1);
    }
  }

  lemma {:induction false} AccountNone()
    ensures Account([]).events == []
  {
  }

  /** A block that no step logged is as it was at the start. */
  lemma {:induction false} UnwrittenKept(g: Geometry, init: Disk, run: seq<Sys>, steps: seq<Step>, m: nat, b: nat)
    requires IsRun(g, init, run, steps) && m < |run| && g.Home(b)
    requires forall q | 0 <= q < m && steps[q].LogWrite? :: steps[q].b != b
    ensures GoodDisk(g, run[m].disk) && |init| == g.total
    ensures Apply(run[m].disk, RecoverWrites(g, run[m].disk))[b] == init[b]
  {
    hide Account, Blocks, Replay, Apply, RecoverWrites, Do;
    NeverWritten(steps, m, b);
    CrashAtomicity(g, init, run, steps, m);
    ReplayNever(init, Durable(steps[..m]), b);
  }

  // ---------- the code takes these steps ----------

  /** The steps lead from s to t. */
  ghost predicate Leads(g: Geometry, s: Sys, steps: seq<Step>, t: Sys)
    decreases |steps|
  {
    if steps == [] then s == t
    else WellFormed(g, s) && Enabled(g, s, steps[0]) && Leads(g, Do(g, s, steps[0]), steps[1..], t)
  }

  lemma {:induction false} LeadsThen(g: Geometry, s: Sys, st: Step, steps: seq<Step>, t: Sys)
    requires WellFormed(g, s) && Enabled(g, s, st) && Leads(g, Do(g, s, st), steps, t)
    ensures Leads(g, s, [st] + steps, t)
  {
    assert ([st] + steps)[1..] == steps;
  }

  /** The global log is in state s, between two calls. */
  ghost predicate Is(l: LogDriver.Log, s: Sys)
    reads l
  {
    && l.disk == s.disk && l.cache == s.cache && l.lh == s.lh && l.outstanding == |s.active|
    && !l.committing && s.phase.Running? && Clean(l.g, s.disk) && WellFormed(l.g, s)
  }

  /** begin_op admits exactly when the protocol lets an operation begin. */
  method BeginOp(l: LogDriver.Log, ghost s: Sys, ghost op: nat) returns (admitted: bool)
    requires Is(l, s) && op !in Used(s.history)
    modifies l`outstanding
    ensures admitted <==> Enabled(l.g, s, LogProtocol.BeginOp(op))
    ensures Is(l, if admitted then Do(l.g, s, LogProtocol.BeginOp(op)) else s)
  {
    hide GoodDisk, GoodHeader, Pinned;
    admitted := l.BeginOp();
  }

  /** log_write of the i-th operation. */
  method LogWrite(l: LogDriver.Log, ghost s: Sys, ghost i: nat, b: nat, data: Block) returns (panicked: bool)
    requires Is(l, s) && i < |s.active| && l.g.Home(b)
    modifies l`lh, l`cache
    ensures panicked <==> LogFull(l.g, s)
    ensures panicked ==> Is(l, s)
    ensures !panicked ==> Enabled(l.g, s, LogProtocol.LogWrite(i, b, data))
                          && Is(l, Do(l.g, s, LogProtocol.LogWrite(i, b, data)))
  {
    hide Count, Header, GoodHeader, Pinned;
    if !LogFull(l.g, s) {
      LogWriteKeepsHeader(l.g, s, b, data);
    }
    panicked := l.LogWrite(b, data);
  }

  ghost function Repeat(st: Step, n: nat): (r: seq<Step>) {
    if n == 0 then [] else [st] + Repeat(st, n - 1)
  }

  /** The steps of an end_op that commits n sectors. */
  ghost function CommitSteps(i: nat, n: nat): (r: seq<Step>) {
    [LogProtocol.EndOp(i)] + (Repeat(CommitSector, n) + [CommitReturn])
  }

  /** From inside a commit the remaining sectors and the return lead to the end of the batch. */
  lemma {:induction false} CommitLeads(g: Geometry, init: Disk, s: Sys)
    requires Inv(g, init, s) && s.phase.Committing?
    ensures s.phase.k <= |s.phase.ws| && InDisk(s.phase.base, s.phase.ws)
    ensures var t := Sys(Apply(s.phase.base, s.phase.ws), map[], [], s.active, Running, s.history, |s.history|);
            Leads(g, s, Repeat(CommitSector, |s.phase.ws| - s.phase.k) + [CommitReturn], t)
    decreases |s.phase.ws| - s.phase.k
  {
    hide GoodDisk, GoodHeader, Pinned, Legal, Open, Means, Shows, Apply, Clean;
    var ws, k := s.phase.ws, s.phase.k;
    CommitGood(g, init, s);
    if k == |ws| {
      assert ws[..k] == ws;
      var t := Do(g, s, CommitReturn);
      assert Leads(g, t, [], t);
      LeadsThen(g, s, CommitReturn, [], t);
      assert Repeat(CommitSector, 0) + [CommitReturn] == [CommitReturn] + [];
    } else {
      StepKeepsInv(g, init, s, CommitSector);
      var s' := Do(g, s, CommitSector);
      CommitLeads(g, init, s');
      var t := Sys(Apply(s.phase.base, ws), map[], [], s.active, Running, s.history, |s.history|);
      LeadsThen(g, s, CommitSector, Repeat(CommitSector, |ws| - k - 1) + [CommitReturn], t);
      assert Repeat(CommitSector, |ws| - k) + [CommitReturn]
          == [CommitSector] + (Repeat(CommitSector, |ws| - k - 1) + [CommitReturn]);
    }
  }

  lemma {:induction false} CommitGood(g: Geometry, init: Disk, s: Sys)
    requires Inv(g, init, s) && s.phase.Committing?
    ensures WellFormed(g, s) && InDisk(s.phase.base, s.phase.ws) && |s.phase.base| == |s.disk|
    ensures s.phase.k < |s.phase.ws| ==> s.phase.ws[s.phase.k].block < |s.disk|
  {
    hide Legal, Open, Means, Shows, Apply, Header, Count;
  }

  lemma {:induction false} NothingListed(g: Geometry, t: Sys)
    requires GoodDisk(g, t.disk) && t.lh == [] && t.cache == map[]
    ensures WellFormed(g, t)
  {
  }

  /** end_op of the i-th operation: one step if others are left, else the step, every sector of the
      commit and the return. */
  method EndOp(l: LogDriver.Log, ghost init: Disk, ghost s: Sys, ghost i: nat)
      returns (r: LogDriver.EndOutcome, ghost t: Sys, ghost steps: seq<Step>)
    requires Is(l, s) && Inv(l.g, init, s) && i < |s.active|
    modifies l`disk, l`cache, l`lh, l`writes, l`outstanding, l`committing
    ensures !r.EndPanic? && Is(l, t) && Leads(l.g, s, steps, t) && (r.BatchCommitted? <==> |s.active| == 1)
    ensures r.StillBusy? ==> steps == [LogProtocol.EndOp(i)]
    ensures r.BatchCommitted? ==>
      |old(l.writes)| <= |l.writes| && steps == CommitSteps(i, |l.writes| - |old(l.writes)|)
  {
    hide Count, Header, GoodHeader, Pinned, Legal, Open, Means, Shows, Apply, DiskInv, OpsInv, CommitWrites, View;
    ghost var st := LogProtocol.EndOp(i);
    StepKeepsInv(l.g, init, s, st);
    ghost var s1 := Do(l.g, s, st);
    r := l.EndOp();
    if |s.active| == 1 {
      CommitLeads(l.g, init, s1);
      t := Sys(Apply(s.disk, s1.phase.ws), map[], [], [], Running, s1.history, |s1.history|);
      LeadsThen(l.g, s, st, Repeat(CommitSector, |s1.phase.ws|) + [CommitReturn], t);
      steps := CommitSteps(i, |s1.phase.ws|);
      NothingListed(l.g, t);
    } else {
      t := s1;
      assert Leads(l.g, s1, [], s1);
      LeadsThen(l.g, s, st, [], s1);
      assert [st] + [] == [st];
      steps := [st];
    }
  }

  ghost function RecoverSteps(n: nat): (r: seq<Step>) {
    [Boot] + (Repeat(RecoverSector, n) + [RecoverReturn])
  }

  lemma {:induction false} RecoveryGood(g: Geometry, init: Disk, s: Sys)
    requires Inv(g, init, s) && s.phase.Recovering?
    ensures WellFormed(g, s) && InDisk(s.phase.base, s.phase.ws) && |s.phase.base| == |s.disk|
    ensures s.phase.k < |s.phase.ws| ==> s.phase.ws[s.phase.k].block < |s.disk|
  {
    hide Legal, Open, Means, Apply, Header, Count;
  }

  lemma {:induction false} RecoveryLeads(g: Geometry, init: Disk, s: Sys)
    requires Inv(g, init, s) && s.phase.Recovering?
    ensures s.phase.k <= |s.phase.ws| && InDisk(s.phase.base, s.phase.ws)
    ensures var t := s.(disk := Apply(s.phase.base, s.phase.ws), phase := Running);
            Leads(g, s, Repeat(RecoverSector, |s.phase.ws| - s.phase.k) + [RecoverReturn], t)
    decreases |s.phase.ws| - s.phase.k
  {
    hide GoodDisk, GoodHeader, Pinned, Legal, Open, Means, Shows, Apply, Clean, RecoverWrites;
    var ws, k := s.phase.ws, s.phase.k;
    RecoveryGood(g, init, s);
    if k == |ws| {
      assert ws[..k] == ws;
      var t := Do(g, s, RecoverReturn);
      assert Leads(g, t, [], t);
      LeadsThen(g, s, RecoverReturn, [], t);
      assert Repeat(RecoverSector, 0) + [RecoverReturn] == [RecoverReturn] + [];
    } else {
      StepKeepsInv(g, init, s, RecoverSector);
      var s' := Do(g, s, RecoverSector);
      RecoveryLeads(g, init, s');
      var t := s.(disk := Apply(s.phase.base, ws), phase := Running);
      LeadsThen(g, s, RecoverSector, Repeat(RecoverSector, |ws| - k - 1) + [RecoverReturn], t);
      assert Repeat(RecoverSector, |ws| - k) + [RecoverReturn]
          == [RecoverSector] + (Repeat(RecoverSector, |ws| - k - 1) + [RecoverReturn]);
    }
  }

  /** initlog on the disk a crash has left: the boot, every sector of the recovery and the return. */
  method Initlog(g: Geometry, disk: Disk, ghost init: Disk, ghost s: Sys)
      returns (l: LogDriver.Log, ghost t: Sys, ghost steps: seq<Step>)
    requires Inv(g, init, s) && s.phase.Down? && s.disk == disk
    ensures fresh(l) && l.g == g && Is(l, t) && Leads(g, s, steps, t) && steps == RecoverSteps(|l.writes|)
  {
    hide Count, Header, GoodHeader, Pinned, Legal, Open, Means, Shows, Apply, OpsInv, RecoverWrites, Committed;
    StepKeepsInv(g, init, s, Boot);
    ghost var s1 := Do(g, s, Boot);
    RecoveryLeads(g, init, s1);
    NobodyActive(s);
    l := new LogDriver.Log(g, disk);
    l.RecoverFromLog();
    t := s1.(disk := Apply(disk, s1.phase.ws), phase := Running);
    LeadsThen(g, s, Boot, Repeat(RecoverSector, |s1.phase.ws|) + [RecoverReturn], t);
    steps := RecoverSteps(|s1.phase.ws|);
    NothingListed(g, t);
  }

  lemma {:induction false} NobodyActive(s: Sys)
    requires OpsInv(s) && s.phase.Down?
    ensures s.active == []
  {
  }
}
