/** The processors of ProcStacks take the steps of ProcTable's scheduler: the two pictures of the
    scheduler are one. */
module ProcLink {
  import opened Options
  import opened ProcTable
  import ProcRuns
  import ProcStacks

  /** Where the activation of a processor is. */
  function ActOf(u: ProcStacks.Cpu): (t: Act) {
    match u
    case Looking => Idle
    case Chosen(p) => Won(p)
    case On(p) => Switched(p)
    case Leaving(p) => Switched(p)
    case Settling(p, i, _) => Back(p, i)
  }

  /** The slots have the states, and activation c is where processor c is. */
  predicate Linked(y: ProcStacks.Machine, w: Sys) {
    && !w.panicked && |w.slots| == |y.states| && |y.cpus| <= |w.acts|
    && (forall p | 0 <= p < |y.states| :: w.slots[p].state == y.states[p])
    && (forall c | 0 <= c < |y.cpus| :: w.acts[c] == ActOf(y.cpus[c]))
  }

  /** What a process does that leaves its slot in this state. */
  function LeaveBy(to: State): (t: Touch) {
    if to == NEG_RUNNABLE then Yield else if to == NEG_SLEEPING then Sleep else Exit
  }

  /** The steps of the process table that an event of the processors stands for. */
  function StepsOf(y: ProcStacks.Machine, e: ProcStacks.Event): (steps: seq<Step>)
    requires ProcStacks.Can(y, e)
  {
    match e
    case Choose(c, p) => [BeginScheduler(c, p), Go(c), Go(c)]
    case Leave(c, to) => [Do(y.cpus[c].p, LeaveBy(to))]
    case Awake(p) => [Do(p, Wakeup)]
    case Free(p) => []
    case Make(p) => []
    case _ => [Go(e.c)]
  }

  lemma {:induction false} OneStep(w: Sys, st: Step)
    requires Enabled(w, st)
    ensures ProcRuns.IsRun(w, [st]) && ProcRuns.Final(w, [st]) == Next(w, st)
  {
    assert [st][1..] == [];
  }

  lemma {:induction false} ThreeSteps(w: Sys, s1: Step, s2: Step, s3: Step)
    requires Enabled(w, s1) && Enabled(Next(w, s1), s2) && Enabled(Next(Next(w, s1), s2), s3)
    ensures ProcRuns.IsRun(w, [s1, s2, s3])
    ensures ProcRuns.Final(w, [s1, s2, s3]) == Next(Next(Next(w, s1), s2), s3)
  {
    hide Enabled, Next;
    var w1, w2 := Next(w, s1), Next(Next(w, s1), s2);
    assert [s1, s2, s3][1..] == [s2, s3] && [s2, s3][1..] == [s3];
    OneStep(w2, s3);
    assert ProcRuns.IsRun(w1, [s2, s3]);
  }

  /** A process leaves or is woken. */
  lemma {:induction false} TouchLinked(y: ProcStacks.Machine, w: Sys, e: ProcStacks.Event)
    requires Linked(y, w) && ProcStacks.Can(y, e) && (e.Leave? || e.Awake?)
    ensures var st := StepsOf(y, e)[0]; Enabled(w, st) && Linked(ProcStacks.Fire(y, e), Next(w, st))
  {
  }

  /** A processor starts its process or gives up its stack. */
  lemma {:induction false} SwitchLinked(y: ProcStacks.Machine, w: Sys, e: ProcStacks.Event)
    requires Linked(y, w) && ProcStacks.Can(y, e) && (e.Enter? || e.Swtch?)
    requires e.Enter? ==> y.states[y.cpus[e.c].p] == NEG_RUNNING
    ensures var st := StepsOf(y, e)[0]; Enabled(w, st) && Linked(ProcStacks.Fire(y, e), Next(w, st))
  {
    hide ForkStep, WaitStep;
  }

  lemma {:induction false} SettleLinked(y: ProcStacks.Machine, w: Sys, e: ProcStacks.Event)
    requires Linked(y, w) && ProcStacks.Can(y, e) && e.Settle? && y.cpus[e.c].i <= 2
    ensures var st := StepsOf(y, e)[0]; Enabled(w, st) && Linked(ProcStacks.Fire(y, e), Next(w, st))
  {
    var c := e.c;
    BackStep(w, c, y.cpus[c].p, y.cpus[c].i);
    hide Next, Enabled;
  }

  function Back(p: nat, i: nat): (t: Act) {
    if i == 0 then Back1(p) else if i == 1 then Back2(p) else Back3(p)
  }

  /** One of the scheduler's three compare-and-swaps. */
  lemma {:induction false} BackStep(w: Sys, c: nat, p: nat, i: nat)
    requires !w.panicked && c < |w.acts| && w.acts[c] == Back(p, i) && p < |w.slots| && i <= 2
    ensures Enabled(w, Go(c))
    ensures Next(w, Go(c)) ==
            Move(Cas(w, p, ProcStacks.From(i), ProcStacks.To(i)), c, if i < 2 then Back(p, i + 1) else Idle)
  {
    hide ForkStep, WaitStep, Cas, Move;
  }

  lemma {:induction false} InOrder(y: ProcStacks.Machine, c: nat)
    requires ProcStacks.Orderly(y) && c < |y.cpus|
    ensures y.cpus[c].Chosen? ==> y.cpus[c].p < |y.states| && y.states[y.cpus[c].p] == NEG_RUNNING
    ensures y.cpus[c].Settling? ==> y.cpus[c].i <= 2
  {
    assert ProcStacks.CpuOK(y.states, y.cpus[c]);
  }

  lemma {:induction false} ChooseLinked(y: ProcStacks.Machine, w: Sys, c: nat, p: nat)
    requires Linked(y, w) && ProcStacks.Can(y, ProcStacks.Choose(c, p))
    ensures var w1 := BeginScheduler(c, p);
            && Enabled(w, w1) && Enabled(Next(w, w1), Go(c)) && Enabled(Next(Next(w, w1), Go(c)), Go(c))
            && Linked(ProcStacks.Fire(y, ProcStacks.Choose(c, p)), Next(Next(Next(w, w1), Go(c)), Go(c)))
  {
    assert w.slots[p].state == RUNNABLE;
  }

  /** In an orderly machine, whatever a processor or a process does is a run of the process table that
      ends in a matching state. (Free and Make stand for a whole wait and a whole fork.) */
  lemma {:induction false} EventSimulated(y: ProcStacks.Machine, w: Sys, e: ProcStacks.Event)
    requires Linked(y, w) && ProcStacks.Orderly(y) && ProcStacks.Can(y, e) && !e.Free? && !e.Make?
    ensures ProcRuns.IsRun(w, StepsOf(y, e))
    ensures Linked(ProcStacks.Fire(y, e), ProcRuns.Final(w, StepsOf(y, e)))
  {
    hide Linked, ProcStacks.Orderly, ProcStacks.Fire, Next, Enabled;
    if e.Choose? {
      ChooseLinked(y, w, e.c, e.p);
      ThreeSteps(w, BeginScheduler(e.c, e.p), Go(e.c), Go(e.c));
    } else {
      if e.Settle? {
        InOrder(y, e.c);
        SettleLinked(y, w, e);
      } else if e.Enter? || e.Swtch? {
        InOrder(y, e.c);
        SwitchLinked(y, w, e);
      } else {
        TouchLinked(y, w, e);
      }
      OneStep(w, StepsOf(y, e)[0]);
    }
  }

  /** Every run of the processors without a stray compare-and-swap is a run of the process table. */
  lemma {:induction false} RunSimulated(y: ProcStacks.Machine, w: Sys, es: seq<ProcStacks.Event>)
      returns (steps: seq<Step>)
    requires Linked(y, w) && ProcStacks.Orderly(y) && ProcStacks.IsRun(y, es) && ProcStacks.NoStray(y, es)
    requires forall e | e in es :: !e.Free? && !e.Make?
    ensures ProcRuns.IsRun(w, steps) && Linked(ProcStacks.After(y, es), ProcRuns.Final(w, steps))
    decreases |es|
  {
    if es == [] {
      steps := [];
    } else {
      hide Linked, ProcStacks.Orderly, ProcStacks.Fire, Next, Enabled, ProcStacks.Can, ProcStacks.Stray, StepsOf;
      var e, z := es[0], ProcStacks.Fire(y, es[0]);
      EventSimulated(y, w, e);
      ProcStacks.EventKeeps(y, e);
      var first := StepsOf(y, e);
      var rest := RunSimulated(z, ProcRuns.Final(w, first), es[1..]);
      ProcRuns.RunsJoin(w, first, rest);
      steps := first + rest;
    }
  }
}
