/** Whole runs of the process table: no guarded compare-and-swap fails, every owned slot has one
    owner, every zombie is reclaimed once, and pids are told apart until the counter wraps. */
module ProcRuns {
  import opened Options
  import opened Sets
  import opened ProcTable

  // ---------- pids ----------

  /** An activation's copies of nextpid, in terms of how many pids had been issued when it read. */
  predicate ReadsOK(y: Sys, t: Act) {
    match t
    case Pid1(_, o, r1) => r1 <= |y.issued| && o == (1 + r1) % WRAP
    case Pid2(_, o, r1, p, r2) => r1 <= r2 <= |y.issued| && o == (1 + r1) % WRAP && p == (2 + r2) % WRAP
    case Pid3(_, o, r1, p, r2, n, r3) =>
      r1 <= r2 <= r3 <= |y.issued| && o == (1 + r1) % WRAP && p == (2 + r2) % WRAP && n == (2 + r3) % WRAP
    case _ => true
  }

  predicate SmallPid(t: Act) {
    (t.Pid2? || t.Pid3?) ==> t.pid < WRAP
  }

  /** Until the counter has gone round once, the i-th pid issued is i + 2. */
  predicate PidsOK(y: Sys) {
    && (forall i | 0 <= i < |y.issued| :: y.issued[i] < WRAP)
    && (forall a | 0 <= a < |y.acts| :: SmallPid(y.acts[a]))
    && (|y.issued| <= WRAP ==>
          && y.nextpid == (1 + |y.issued|) % WRAP
          && (forall i | 0 <= i < |y.issued| :: y.issued[i] == (2 + i) % WRAP)
          && forall a | 0 <= a < |y.acts| :: ReadsOK(y, y.acts[a]))
  }

  /** A successful compare-and-swap means that nothing was issued between the three reads. */
  lemma {:induction false} ReadsAgree(y: Sys, t: Act)
    requires t.Pid3? && ReadsOK(y, t) && |y.issued| < WRAP && t.old_ == y.nextpid == (1 + |y.issued|) % WRAP
    ensures t.pid == t.new_ == (2 + |y.issued|) % WRAP
  {
    assert t.r1 == |y.issued|;
  }

  lemma {:induction false} NumberPids(y: Sys, a: nat)
    requires PidsOK(y) && a < |y.acts| && y.acts[a].Pid3? && y.acts[a].s < |y.slots|
    ensures PidsOK(Number(y, a))
  {
    var t := y.acts[a];
    assert SmallPid(t);
    if y.nextpid == t.old_ && |y.issued| < WRAP {
      ReadsAgree(y, t);
    }
  }

  /** Activation a moved on, and the counter did not. */
  predicate SameCounter(y: Sys, z: Sys, a: nat) {
    && z.issued == y.issued && z.nextpid == y.nextpid && |z.acts| == |y.acts|
    && forall b | 0 <= b < |y.acts| && b != a :: z.acts[b] == y.acts[b]
  }

  lemma {:induction false} SameCounterPids(y: Sys, z: Sys, a: nat)
    requires PidsOK(y) && SameCounter(y, z, a)
    requires a < |y.acts| ==> SmallPid(z.acts[a]) && (|y.issued| <= WRAP ==> ReadsOK(y, z.acts[a]))
    ensures PidsOK(z)
  {
    forall b | 0 <= b < |z.acts|
      ensures SmallPid(z.acts[b]) && (|y.issued| <= WRAP ==> ReadsOK(z, z.acts[b]))
    {
      assert b != a ==> SmallPid(y.acts[b]) && z.acts[b] == y.acts[b];
    }
  }

  predicate Reading(t: Act) {
    t.Pid1? || t.Pid2? || t.Pid3?
  }

  lemma {:induction false} ForkCounter(y: Sys, a: nat)
    requires a < |y.acts| && InTable(y, y.acts[a]) && !y.acts[a].Pid3?
    ensures var z := ForkStep(y, a);
            SameCounter(y, z, a) && (y.acts[a].Pid0? || y.acts[a].Pid1? || y.acts[a].Pid2? || !Reading(z.acts[a]))
  {
  }

  lemma {:induction false} WaitCounter(y: Sys, a: nat)
    requires a < |y.acts| && InTable(y, y.acts[a]) && Waiting(y.acts[a])
    ensures SameCounter(y, WaitStep(y, a), a) && !Reading(WaitStep(y, a).acts[a])
  {
  }

  lemma {:induction false} SchedulerCounter(y: Sys, a: nat)
    requires a < |y.acts| && InTable(y, y.acts[a]) && Scheduling(y.acts[a])
    ensures SameCounter(y, SchedulerStep(y, a), a) && !Reading(SchedulerStep(y, a).acts[a])
  {
  }

  lemma {:induction false} AdvancePids(y: Sys, a: nat)
    requires PidsOK(y) && a < |y.acts| && InTable(y, y.acts[a])
    ensures PidsOK(Advance(y, a))
  {
    hide PidsOK, ForkStep, WaitStep, SchedulerStep, SameCounter;
    if Waiting(y.acts[a]) {
      WaitCounter(y, a);
      SameCounterPids(y, WaitStep(y, a), a);
    } else if Scheduling(y.acts[a]) {
      SchedulerCounter(y, a);
      SameCounterPids(y, SchedulerStep(y, a), a);
    } else {
      ForkPids(y, a);
    }
  }

  lemma {:induction false} ForkPids(y: Sys, a: nat)
    requires PidsOK(y) && a < |y.acts| && InTable(y, y.acts[a])
    ensures PidsOK(ForkStep(y, a))
  {
    if y.acts[a].Pid3? {
      NumberPids(y, a);
    } else {
      ForkCounter(y, a);
      ForkReads(y, a);
      hide PidsOK, ForkStep, ReadsOK, SmallPid, SameCounter;
      SameCounterPids(y, ForkStep(y, a), a);
    }
  }

  lemma {:induction false} ForkReads(y: Sys, a: nat)
    requires PidsOK(y) && a < |y.acts| && InTable(y, y.acts[a]) && !y.acts[a].Pid3?
    requires a < |ForkStep(y, a).acts|
    ensures SmallPid(ForkStep(y, a).acts[a]) && (|y.issued| <= WRAP ==> ReadsOK(y, ForkStep(y, a).acts[a]))
  {
    hide Number, DropSlot, PublishSlot, Seize, Put;
    ForkCounter(y, a);
    assert |y.issued| <= WRAP ==> ReadsOK(y, y.acts[a]);
  }

  lemma {:induction false} StepPids(y: Sys, st: Step)
    requires PidsOK(y) && Enabled(y, st)
    ensures PidsOK(Next(y, st))
  {
    hide PidsOK, ForkStep, WaitStep, SchedulerStep, Advance;
    var z := Next(y, st);
    match st
    case Go(a) => AdvancePids(y, a);
    case Do(s, t) => SameCounterPids(y, z, |y.acts|);
    case Lend(page) => SameCounterPids(y, z, |y.acts|);
    case Return(page) => SameCounterPids(y, z, |y.acts|);
    case _ => SameCounterPids(y, z, st.a);
  }

  // ---------- what fork and wait have returned ----------

  function Note(ans: seq<Answer>, k: Option<nat>, issued: seq<nat>): (r: seq<Answer>)
    requires k.Some? ==> k.value < |issued|
  {
    if k.None? then ans else ans + [Answer(k.value, issued[k.value])]
  }

  predicate Has(ans: seq<Answer>, k: nat) {
    exists i | 0 <= i < |ans| :: ans[i].k == k
  }

  predicate Once(ans: seq<Answer>) {
    forall i, j | 0 <= i < j < |ans| :: ans[i].k != ans[j].k
  }

  /** Every answer is the pid of its incarnation. */
  predicate True(ans: seq<Answer>, issued: seq<nat>) {
    forall i | 0 <= i < |ans| :: ans[i].k < |issued| && ans[i].pid == issued[ans[i].k]
  }

  /** fork has answered once for every published incarnation, wait once for every returned one. */
  predicate HistoryOK(y: Sys) {
    && |y.fate| == |y.issued|
    && Once(y.forks) && True(y.forks, y.issued) && Once(y.waits) && True(y.waits, y.issued)
    && (forall k | 0 <= k < |y.fate| :: Published(y, k) <==> Has(y.forks, k))
    && (forall k | 0 <= k < |y.fate| :: y.fate[k].Returned? <==> Has(y.waits, k))
  }

  lemma {:induction false} NoteHas(ans: seq<Answer>, k: Option<nat>, issued: seq<nat>, j: nat)
    requires k.Some? ==> k.value < |issued|
    ensures Has(Note(ans, k, issued), j) <==> Has(ans, j) || k == Some(j)
  {
    var r := Note(ans, k, issued);
    if Has(ans, j) {
      var i :| 0 <= i < |ans| && ans[i].k == j;
      assert r[i].k == j;
    }
    if k == Some(j) {
      assert r[|ans|].k == j;
    }
    if Has(r, j) && k != Some(j) {
      var i :| 0 <= i < |r| && r[i].k == j;
      assert ans[i].k == j;
    }
  }

  lemma {:induction false} NoteTrue(ans: seq<Answer>, k: Option<nat>, issued: seq<nat>, later: seq<nat>)
    requires (k.Some? ==> k.value < |issued| && !Has(ans, k.value)) && Once(ans) && True(ans, issued) && issued <= later
    ensures Once(Note(ans, k, issued)) && True(Note(ans, k, issued), later)
  {
    forall i | 0 <= i < |ans|
      ensures ans[i].k < |later| && ans[i].pid == later[ans[i].k] && k != Some(ans[i].k)
    {
    }
  }

  lemma {:induction false} PublishAnswer(y: Sys, a: nat)
    requires Good(y) && a < |y.acts| && y.acts[a].Publish? && InTable(y, y.acts[a])
    ensures var z := ForkStep(y, a); var p := PublishedBy(y, Go(a));
            p.Some? && p.value < |y.issued| && z.forks == Note(y.forks, p, y.issued) && z.waits == y.waits
            && z.issued == y.issued
  {
    assert ActOK(y, a) && SlotOK(y, y.acts[a].s);
  }

  lemma {:induction false} UnlockAnswer(y: Sys, a: nat)
    requires Good(y) && a < |y.acts| && y.acts[a].Unlock? && InTable(y, y.acts[a])
    ensures var z := WaitStep(y, a); var r := ReturnedBy(y, Go(a));
            r.Some? && r.value < |y.issued| && z.waits == Note(y.waits, r, y.issued) && z.forks == y.forks
            && z.issued == y.issued
  {
    assert ActOK(y, a);
  }

  lemma {:induction false} OtherAnswers(y: Sys, st: Step)
    requires Enabled(y, st) && PublishedBy(y, st).None? && ReturnedBy(y, st).None?
    requires st.Go? ==> !y.acts[st.a].Publish?
    ensures var z := Next(y, st); z.forks == y.forks && z.waits == y.waits && y.issued <= z.issued
  {
  }

  lemma {:induction false} StepAnswers(y: Sys, st: Step)
    requires Good(y) && Enabled(y, st)
    ensures var z := Next(y, st); var p, r := PublishedBy(y, st), ReturnedBy(y, st);
            && y.issued <= z.issued && (p.Some? ==> p.value < |y.issued|) && (r.Some? ==> r.value < |y.issued|)
            && z.forks == Note(y.forks, p, y.issued) && z.waits == Note(y.waits, r, y.issued)
  {
    hide Good, ForkStep, WaitStep, SchedulerStep, Stacked, Failed, Touched;
    if st.Go? && y.acts[st.a].Publish? {
      PublishAnswer(y, st.a);
    } else if st.Go? && y.acts[st.a].Unlock? {
      UnlockAnswer(y, st.a);
    } else {
      OtherAnswers(y, st);
    }
  }

  lemma {:induction false} StepHistory(y: Sys, st: Step)
    requires Good(y) && Enabled(y, st) && HistoryOK(y) && Shape(Next(y, st))
    requires Told(y, Next(y, st), PublishedBy(y, st), ReturnedBy(y, st))
    ensures HistoryOK(Next(y, st))
  {
    hide Good, Next, PublishedBy, ReturnedBy, Published, Has, Once, True, Note;
    var z, p, r := Next(y, st), PublishedBy(y, st), ReturnedBy(y, st);
    StepAnswers(y, st);
    NoteTrue(y.forks, p, y.issued, z.issued);
    NoteTrue(y.waits, r, y.issued, z.issued);
    forall k | 0 <= k < |z.fate|
      ensures Published(z, k) <==> Has(z.forks, k)
      ensures z.fate[k].Returned? <==> Has(z.waits, k)
    {
      NoteHas(y.forks, p, y.issued, k);
      NoteHas(y.waits, r, y.issued, k);
      if |y.fate| <= k {
        NotYet(y.forks, y.issued, k);
        NotYet(y.waits, y.issued, k);
      }
    }
  }

  lemma {:induction false} NotYet(ans: seq<Answer>, issued: seq<nat>, k: nat)
    requires True(ans, issued) && |issued| <= k
    ensures !Has(ans, k)
  {
  }

  // ---------- runs ----------

  /** The table as pinit leaves it; no activation has begun. */
  predicate Initial(y: Sys) {
    && |y.slots| > 0 && y.nextpid == 1 && !y.panicked && y.free !! y.others
    && (forall s | 0 <= s < |y.slots| :: y.slots[s].state == UNUSED && y.slots[s].kstack.None? && y.slots[s].inc.None?)
    && (forall a | 0 <= a < |y.acts| :: y.acts[a] == Idle)
    && y.issued == [] && y.fate == [] && y.exited == {} && y.forks == [] && y.waits == []
  }

  predicate IsRun(y: Sys, steps: seq<Step>)
    decreases |steps|
  {
    steps == [] || (Enabled(y, steps[0]) && IsRun(Next(y, steps[0]), steps[1..]))
  }

  function Final(y: Sys, steps: seq<Step>): (z: Sys)
    requires IsRun(y, steps)
    decreases |steps|
  {
    if steps == [] then y else Final(Next(y, steps[0]), steps[1..])
  }

  predicate Inv(y: Sys) {
    Good(y) && !y.panicked && PidsOK(y) && HistoryOK(y)
  }

  lemma {:induction false} RunFrom(y: Sys, steps: seq<Step>)
    requires Inv(y) && IsRun(y, steps)
    ensures Inv(Final(y, steps)) && Pages(Final(y, steps)) == Pages(y)
    decreases |steps|
  {
    hide PidsOK, HistoryOK, Owned, Apart, Pages, Told, Next, Enabled;
    if steps != [] {
      var st := steps[0];
      StepKeeps(y, st);
      StepPids(y, st);
      assert Shape(Next(y, st)) by {
        ShapeOf(Next(y, st));
      }
      StepHistory(y, st);
      RunFrom(Next(y, st), steps[1..]);
    }
  }

  lemma {:induction false} ShapeOf(y: Sys)
    requires Owned(y)
    ensures Shape(y)
  {
  }

  lemma {:induction false} RunInv(y: Sys, steps: seq<Step>)
    requires Initial(y) && IsRun(y, steps)
    ensures Inv(Final(y, steps)) && Pages(Final(y, steps)) == Pages(y) == y.free + y.others
  {
    hide IsRun, Final;
    assert Good(y) && PidsOK(y) && HistoryOK(y);
    RunFrom(y, steps);
  }

  // ---------- the theorems ----------

  /** The compare-and-swaps whose failure is a panic (userinit, fork, wait, scheduler) never fail. */
  lemma {:induction false} NeverPanics(y: Sys, steps: seq<Step>)
    requires Initial(y) && IsRun(y, steps)
    ensures !Final(y, steps).panicked
  {
    RunInv(y, steps);
  }

  predicate Owns(y: Sys, a: nat, s: nat) {
    a < |y.acts| && s < |y.slots| && Claim(y.acts[a]) == Some((s, y.slots[s].state))
  }

  /** A slot in EMBRYO, NEG_UNUSED or NEG_RUNNING belongs to exactly one activation, the one that is
      setting it up, reclaiming it or switching to it; a slot in another state belongs to none. */
  lemma {:induction false} OneOwner(y: Sys, steps: seq<Step>, s: nat)
    requires Initial(y) && IsRun(y, steps) && s < |Final(y, steps).slots|
    ensures var z := Final(y, steps);
            if Guarded(z.slots[s].state)
            then Owns(z, z.slots[s].holder, s)
                 && forall a | 0 <= a < |z.acts| && Claim(z.acts[a]).Some? && z.acts[a].s == s :: a == z.slots[s].holder
            else forall a | 0 <= a < |z.acts| && Claim(z.acts[a]).Some? :: z.acts[a].s != s
  {
    hide IsRun, Final;
    RunInv(y, steps);
    var z := Final(y, steps);
    assert SlotOK(z, s);
    forall a | 0 <= a < |z.acts| && Claim(z.acts[a]).Some? && z.acts[a].s == s
      ensures Guarded(z.slots[s].state) && a == z.slots[s].holder
    {
      assert ActOK(z, a);
    }
  }

  /** Where an incarnation that has exited is. */
  predicate AwaitsWait(y: Sys, k: nat) {
    k < |y.fate| && y.fate[k].In? && y.fate[k].s < |y.slots| && Dead(y.slots[y.fate[k].s].state)
  }

  predicate BeingReaped(y: Sys, k: nat) {
    k < |y.fate| && y.fate[k].Reaping? && y.fate[k].a < |y.acts|
    && (y.acts[y.fate[k].a].Reap? || y.acts[y.fate[k].a].Unlock?) && y.acts[y.fate[k].a].k == k
  }

  /** Every process that exits is reclaimed exactly once: it is a zombie in its slot, or in the hands
      of one activation of wait, or has been returned by exactly one wait. Nothing else is ever
      returned, and only what fork returned before. */
  lemma {:induction false} ReclaimedOnce(y: Sys, steps: seq<Step>)
    requires Initial(y) && IsRun(y, steps)
    ensures var z := Final(y, steps);
            && (forall k: nat :: k in z.exited <==> AwaitsWait(z, k) || BeingReaped(z, k) || Has(z.waits, k))
            && (forall k: nat :: !(AwaitsWait(z, k) && Has(z.waits, k)) && !(BeingReaped(z, k) && Has(z.waits, k)))
            && Once(z.waits) && Once(z.forks)
            && (forall i | 0 <= i < |z.waits| :: z.waits[i] in z.forks)
  {
    hide IsRun, Final, Has, Once;
    RunInv(y, steps);
    var z := Final(y, steps);
    forall k: nat
      ensures k in z.exited <==> AwaitsWait(z, k) || BeingReaped(z, k) || Has(z.waits, k)
      ensures !(AwaitsWait(z, k) && Has(z.waits, k)) && !(BeingReaped(z, k) && Has(z.waits, k))
    {
      ExitedWhere(z, k);
    }
    forall i | 0 <= i < |z.waits|
      ensures z.waits[i] in z.forks
    {
      WaitedWasForked(z, i);
    }
  }

  lemma {:induction false} ExitedWhere(z: Sys, k: nat)
    requires Inv(z)
    ensures k in z.exited <==> AwaitsWait(z, k) || BeingReaped(z, k) || Has(z.waits, k)
    ensures !(AwaitsWait(z, k) && Has(z.waits, k)) && !(BeingReaped(z, k) && Has(z.waits, k))
  {
    hide PidsOK, Has, Once;
    if k < |z.fate| {
      assert FateOK(z, k);
      if z.fate[k].In? {
        assert SlotOK(z, z.fate[k].s);
      }
    } else {
      NotYet(z.waits, z.issued, k);
    }
  }

  lemma {:induction false} WaitedWasForked(z: Sys, i: nat)
    requires Inv(z) && i < |z.waits|
    ensures z.waits[i] in z.forks
  {
    hide PidsOK, Once;
    var k := z.waits[i].k;
    assert Has(z.waits, k);
    assert Published(z, k);
    var j :| 0 <= j < |z.forks| && z.forks[j].k == k;
    assert z.forks[j] == z.waits[i];
  }

  predicate Distinct(ps: seq<nat>) {
    forall i, j | 0 <= i < j < |ps| :: ps[i] != ps[j]
  }

  lemma {:induction false} Crowded(ps: seq<nat>, n: nat)
    requires Distinct(ps) && forall i | 0 <= i < |ps| :: ps[i] < n
    ensures |ps| <= n
  {
    var used := set i | 0 <= i < |ps| :: ps[i];
    Counted(ps);
    assert used <= Interval(0, n);
    Smaller(used, Interval(0, n));
  }

  lemma {:induction false} Counted(ps: seq<nat>)
    requires Distinct(ps)
    ensures |set i | 0 <= i < |ps| :: ps[i]| == |ps|
  {
    if ps != [] {
      var n := |ps| - 1;
      var init := ps[..n];
      Counted(init);
      assert (set i | 0 <= i < |ps| :: ps[i]) == (set i | 0 <= i < |init| :: init[i]) + {ps[n]};
    }
  }

  /** allocpid's three reads of nextpid are not atomic, yet no pid is issued twice, exactly as long as
      the counter has not gone all the way round. */
  lemma {:induction false} PidsDistinctIff(y: Sys, steps: seq<Step>)
    requires Initial(y) && IsRun(y, steps)
    ensures var z := Final(y, steps); Distinct(z.issued) <==> |z.issued| <= WRAP
  {
    hide IsRun, Final, HistoryOK, Good;
    RunInv(y, steps);
    var z := Final(y, steps);
    if Distinct(z.issued) {
      Crowded(z.issued, WRAP);
    }
  }

  // ---------- the counter does go round ----------

  /** One idle activation, one unused slot and a free page. */
  predicate Resting(y: Sys, page: nat) {
    && !y.panicked && |y.acts| == 1 && y.acts[0] == Idle
    && |y.slots| == 1 && y.slots[0].state == UNUSED && y.slots[0].kstack == None && page in y.free
  }

  lemma {:induction false} Then(y: Sys, st: Step, z: Sys, steps: seq<Step>)
    requires Enabled(y, st) && Next(y, st) == z && IsRun(z, steps)
    ensures IsRun(y, [st] + steps) && Final(y, [st] + steps) == Final(z, steps)
  {
    assert ([st] + steps)[0] == st && ([st] + steps)[1..] == steps;
  }

  /** The seven states of a fork up to the compare-and-swap that issues its pid. */
  ghost function Forking(y: Sys, i: nat): (z: Sys)
    requires |y.slots| == 1
  {
    var slot := y.slots[0].(state := EMBRYO, holder := 0);
    var (o, n, p) := (y.nextpid, |y.issued|, (y.nextpid + 1) % WRAP);
    match i
    case 0 => y
    case 1 => y.(acts := [Scan(0)])
    case 2 => y.(acts := [Pid0(0)], slots := [slot])
    case 3 => y.(acts := [Pid1(0, o, n)], slots := [slot])
    case 4 => y.(acts := [Pid2(0, o, n, p, n)], slots := [slot])
    case 5 => y.(acts := [Pid3(0, o, n, p, n, p, n)], slots := [slot])
    case _ => y.(acts := [Stack(0)], slots := [slot.(pid := p, inc := Some(n))], nextpid := p, issued := y.issued + [p],
                 fate := y.fate + [In(0)])
  }

  lemma {:induction false} ForkingNext(y: Sys, page: nat, i: nat)
    requires Resting(y, page) && i < 6
    ensures var st := if i == 0 then BeginFork(0) else Go(0);
            Enabled(Forking(y, i), st) && Next(Forking(y, i), st) == Forking(y, i + 1)
  {
  }

  /** From state i of the fork on. */
  ghost function ForkSteps(i: nat): (steps: seq<Step>)
    requires i <= 6
    decreases 6 - i
  {
    if i == 6 then [] else [if i == 0 then BeginFork(0) else Go(0)] + ForkSteps(i + 1)
  }

  lemma {:induction false} ForkNumbers(y: Sys, page: nat, i: nat, steps: seq<Step>)
    requires Resting(y, page) && i <= 6 && IsRun(Forking(y, 6), steps)
    ensures IsRun(Forking(y, i), ForkSteps(i) + steps)
    ensures Final(Forking(y, i), ForkSteps(i) + steps) == Final(Forking(y, 6), steps)
    decreases 6 - i
  {
    hide IsRun, Final, Enabled, Next, Forking;
    if i == 6 {
      assert ForkSteps(6) + steps == steps;
    } else {
      var st := if i == 0 then BeginFork(0) else Go(0);
      ForkNumbers(y, page, i + 1, steps);
      ForkingNext(y, page, i);
      Then(Forking(y, i), st, Forking(y, i + 1), ForkSteps(i + 1) + steps);
      assert ForkSteps(i) + steps == [st] + (ForkSteps(i + 1) + steps);
    }
  }

  /** The same fork gets a stack, fails in copyuvm and gives everything back. */
  lemma {:induction false} ForkFails(z: Sys, page: nat) returns (steps: seq<Step>)
    requires z.acts == [Stack(0)] && |z.slots| == 1 && z.slots[0].state == EMBRYO && z.slots[0].kstack == None
    requires !z.panicked && page in z.free
    ensures IsRun(z, steps) && Resting(Final(z, steps), page) && Final(z, steps).issued == z.issued
  {
    var z1 := Next(z, GoPage(0, page));
    var z2 := Next(z1, GoFail(0));
    var z3 := Next(z2, Go(0));
    assert IsRun(z3, []) && Final(z3, []) == z3;
    hide IsRun, Final;
    Then(z2, Go(0), z3, []);
    Then(z1, GoFail(0), z2, [Go(0)] + []);
    Then(z, GoPage(0, page), z1, [GoFail(0)] + ([Go(0)] + []));
    steps := [GoPage(0, page)] + ([GoFail(0)] + ([Go(0)] + []));
  }

  lemma {:induction false} NoSteps(y: Sys)
    ensures IsRun(y, []) && Final(y, []) == y
  {
  }

  lemma {:induction false} RunsJoin(y: Sys, s: seq<Step>, t: seq<Step>)
    requires IsRun(y, s) && IsRun(Final(y, s), t)
    ensures IsRun(y, s + t) && Final(y, s + t) == Final(Final(y, s), t)
    decreases |s|
  {
    if s == [] {
      assert s + t == t;
    } else {
      RunsJoin(Next(y, s[0]), s[1..], t);
      assert (s + t)[1..] == s[1..] + t;
    }
  }

  lemma {:induction false} MorePids(y: Sys, page: nat, n: nat) returns (steps: seq<Step>)
    requires Resting(y, page)
    ensures IsRun(y, steps) && Resting(Final(y, steps), page) && |Final(y, steps).issued| == |y.issued| + n
  {
    hide IsRun, Final, ForkSteps;
    steps := [];
    NoSteps(y);
    if n > 0 {
      var before := MorePids(y, page, n - 1);
      var rest := Final(y, before);
      var fails := ForkFails(Forking(rest, 6), page);
      ForkNumbers(rest, page, 0, fails);
      RunsJoin(y, before, ForkSteps(0) + fails);
      steps := before + (ForkSteps(0) + fails);
    }
  }

  /** For every n there is a run that issues n pids; beyond WRAP some pid is issued twice. */
  lemma {:induction false} PidsRunOut(n: nat) returns (y: Sys, steps: seq<Step>)
    ensures Initial(y) && IsRun(y, steps) && |Final(y, steps).issued| == n
    ensures Distinct(Final(y, steps).issued) <==> n <= WRAP
  {
    hide IsRun, Final;
    y := Sys([Slot(UNUSED, 0, None, None, 0)], 1, {1}, {}, [Idle], false, [], [], {}, [], []);
    steps := MorePids(y, 1, n);
    PidsDistinctIff(y, steps);
  }

  function PidsOf(ans: seq<Answer>): (ps: seq<nat>) {
    seq(|ans|, i requires 0 <= i < |ans| => ans[i].pid)
  }

  /** While the counter has not gone round, no two forks return the same pid, no two waits do, and
      wait returns only pids that fork returned. */
  lemma {:induction false} PidsTellApart(y: Sys, steps: seq<Step>)
    requires Initial(y) && IsRun(y, steps) && |Final(y, steps).issued| <= WRAP
    ensures var z := Final(y, steps);
            && Distinct(PidsOf(z.forks)) && Distinct(PidsOf(z.waits))
            && forall i | 0 <= i < |z.waits| :: z.waits[i] in z.forks
  {
    hide IsRun, Final, PidsOK;
    RunInv(y, steps);
    PidsDistinctIff(y, steps);
    ReclaimedOnce(y, steps);
    var z := Final(y, steps);
    AnswersApart(z.forks, z.issued);
    AnswersApart(z.waits, z.issued);
  }

  lemma {:induction false} AnswersApart(ans: seq<Answer>, issued: seq<nat>)
    requires Once(ans) && True(ans, issued) && Distinct(issued)
    ensures Distinct(PidsOf(ans))
  {
    forall i, j | 0 <= i < j < |ans|
      ensures ans[i].pid != ans[j].pid
    {
      var k, l := ans[i].k, ans[j].k;
      assert k < l || l < k;
    }
  }

  /** Kernel stacks are neither lost nor freed twice: every page is free, in use elsewhere, or the stack
      of one slot, and only one of these. */
  lemma {:induction false} StacksConserved(y: Sys, steps: seq<Step>)
    requires Initial(y) && IsRun(y, steps)
    ensures var z := Final(y, steps);
            && Pages(z) == y.free + y.others && Apart(z)
            && forall s | 0 <= s < |z.slots| && z.slots[s].kstack.Some? :: z.slots[s].kstack.value !in z.free + z.others
  {
    hide IsRun, Final, PidsOK, HistoryOK;
    RunInv(y, steps);
    var z := Final(y, steps);
    forall s | 0 <= s < |z.slots| && z.slots[s].kstack.Some?
      ensures z.slots[s].kstack.value !in z.free + z.others
    {
      assert SlotOK(z, s);
    }
  }
}
