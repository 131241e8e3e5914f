/** Processors on kernel stacks. The scheduler takes a runnable slot, switches to its kernel stack and,
    back on its own stack, settles the state the process left behind with three compare-and-swaps in
    a row, whatever the earlier ones did. */
module ProcStacks {
  import opened Options
  import opened ProcTable

  /** Where a processor is: looking for work, about to switch to p, on p's kernel stack running p, still
      on it after p asked to leave, or back on the scheduler's stack with the i-th compare-and-swap to
      do. done: one of them has succeeded in this visit. */
  datatype Cpu =
    | Looking
    | Chosen(p: nat)
    | On(p: nat)
    | Leaving(p: nat)
    | Settling(p: nat, i: nat, done: bool)

  datatype Machine = Machine(states: seq<State>, cpus: seq<Cpu>)

  datatype Event =
    | Choose(c: nat, p: nat)
    | Enter(c: nat)
    | Leave(c: nat, to: State)
    | Swtch(c: nat)
    | Settle(c: nat)
    | Awake(p: nat)
    | Free(p: nat)
    | Make(p: nat)

  /** What yield, sleep and exit leave in the slot, and what the scheduler turns it into. */
  predicate Left(st: State) {
    st == NEG_RUNNABLE || st == NEG_SLEEPING || st == NEG_ZOMBIE
  }

  function From(i: nat): (st: State) {
    if i == 0 then NEG_RUNNABLE else if i == 1 then NEG_SLEEPING else NEG_ZOMBIE
  }

  function To(i: nat): (st: State) {
    if i == 0 then RUNNABLE else if i == 1 then SLEEPING else ZOMBIE
  }

  predicate Busy(y: Machine, c: nat) {
    c < |y.cpus| && !y.cpus[c].Looking? && y.cpus[c].p < |y.states|
  }

  predicate Can(y: Machine, e: Event) {
    match e
    case Choose(c, p) => c < |y.cpus| && y.cpus[c].Looking? && p < |y.states| && y.states[p] == RUNNABLE
    case Enter(c) => Busy(y, c) && y.cpus[c].Chosen?
    case Leave(c, to) => Busy(y, c) && y.cpus[c].On? && Left(to)
    case Swtch(c) => Busy(y, c) && y.cpus[c].Leaving?
    case Settle(c) => Busy(y, c) && y.cpus[c].Settling?
    case Awake(p) => p < |y.states|
    case Free(p) => p < |y.states|
    case Make(p) => p < |y.states|
  }

  function Swap(states: seq<State>, p: nat, from: State, to: State): (r: seq<State>)
    requires p < |states|
  {
    if states[p] == from then states[p := to] else states
  }

  function Fire(y: Machine, e: Event): (z: Machine)
    requires Can(y, e)
  {
    match e
    case Choose(c, p) => Machine(Swap(y.states, p, RUNNABLE, NEG_RUNNING), y.cpus[c := Chosen(p)])
    case Enter(c) =>
      var p := y.cpus[c].p;
      Machine(Swap(y.states, p, NEG_RUNNING, RUNNING), y.cpus[c := On(p)])
    case Leave(c, to) =>
      var p := y.cpus[c].p;
      Machine(Swap(y.states, p, RUNNING, to), y.cpus[c := Leaving(p)])
    case Swtch(c) => y.(cpus := y.cpus[c := Settling(y.cpus[c].p, 0, false)])
    case Settle(c) =>
      var (p, i) := (y.cpus[c].p, y.cpus[c].i);
      var done := y.cpus[c].done || y.states[p] == From(i);
      Machine(Swap(y.states, p, From(i), To(i)),
              y.cpus[c := if i < 2 then Settling(p, i + 1, done) else Looking])
    case Awake(p) => y.(states := Swap(y.states, p, SLEEPING, RUNNABLE))
    case Free(p) => y.(states := Swap(y.states, p, ZOMBIE, UNUSED))
    case Make(p) => y.(states := Swap(y.states, p, UNUSED, RUNNABLE))
  }

  /** The compare-and-swap succeeds although this visit has settled the slot already: it acts on a
      process that another processor is running. */
  predicate Stray(y: Machine, e: Event)
    requires Can(y, e)
  {
    e.Settle? && y.cpus[e.c].done && y.states[y.cpus[e.c].p] == From(y.cpus[e.c].i)
  }

  predicate IsRun(y: Machine, es: seq<Event>)
    decreases |es|
  {
    es == [] || (Can(y, es[0]) && IsRun(Fire(y, es[0]), es[1..]))
  }

  function After(y: Machine, es: seq<Event>): (z: Machine)
    requires IsRun(y, es)
    decreases |es|
  {
    if es == [] then y else After(Fire(y, es[0]), es[1..])
  }

  predicate NoStray(y: Machine, es: seq<Event>)
    requires IsRun(y, es)
    decreases |es|
  {
    es == [] || (!Stray(y, es[0]) && NoStray(Fire(y, es[0]), es[1..]))
  }

  predicate Fresh(y: Machine) {
    && (forall c | 0 <= c < |y.cpus| :: y.cpus[c].Looking?)
    && (forall p | 0 <= p < |y.states| :: y.states[p] == UNUSED || y.states[p] == RUNNABLE)
  }

  /** The kernel stack a processor is on. */
  function StackOf(u: Cpu): (p: Option<nat>) {
    match u
    case On(p) => Some(p)
    case Leaving(p) => Some(p)
    case _ => None
  }

  /** At most one processor on a kernel stack, and none on the stack of a slot that wait has freed. */
  predicate Exclusive(y: Machine) {
    && (forall c, d | 0 <= c < d < |y.cpus| && StackOf(y.cpus[c]).Some? :: StackOf(y.cpus[c]) != StackOf(y.cpus[d]))
    && (forall c | 0 <= c < |y.cpus| && StackOf(y.cpus[c]).Some? ::
          var p := StackOf(y.cpus[c]).value; p < |y.states| && y.states[p] != UNUSED)
  }

  // ---------- without stray settling ----------

  /** The slot a processor is answerable for. */
  function Held(u: Cpu): (p: Option<nat>) {
    match u
    case Looking => None
    case Chosen(p) => Some(p)
    case On(p) => Some(p)
    case Leaving(p) => Some(p)
    case Settling(p, _, done) => if done then None else Some(p)
  }

  predicate CpuOK(states: seq<State>, u: Cpu) {
    match u
    case Looking => true
    case Chosen(p) => p < |states| && states[p] == NEG_RUNNING
    case On(p) => p < |states| && states[p] == RUNNING
    case Leaving(p) => p < |states| && Left(states[p])
    case Settling(p, i, done) =>
      p < |states| && i < 3 && (i == 0 ==> !done)
      && (!done ==> Left(states[p]) && (i > 0 ==> states[p] != From(0)) && (i > 1 ==> states[p] != From(1)))
  }

  /** Every processor finds its slot as it left it, and no two are answerable for one slot. */
  predicate Orderly(y: Machine) {
    && (forall c | 0 <= c < |y.cpus| :: CpuOK(y.states, y.cpus[c]))
    && (forall c, d | 0 <= c < d < |y.cpus| && Held(y.cpus[c]).Some? :: Held(y.cpus[c]) != Held(y.cpus[d]))
  }

  /** The processor an event belongs to, if any. */
  function Actor(y: Machine, e: Event): (c: nat) {
    if e.Awake? || e.Free? || e.Make? then |y.cpus| else e.c
  }

  lemma {:induction false} ActorKeeps(y: Machine, e: Event)
    requires Orderly(y) && Can(y, e) && !Stray(y, e) && Actor(y, e) < |y.cpus|
    ensures var (z, c) := (Fire(y, e), Actor(y, e));
            CpuOK(z.states, z.cpus[c])
            && (|| Held(z.cpus[c]).None?
                || Held(z.cpus[c]) == Held(y.cpus[c])
                || (e.Choose? && Held(z.cpus[c]) == Some(e.p)))
  {
    assert CpuOK(y.states, y.cpus[Actor(y, e)]);
  }

  lemma {:induction false} OtherKeeps(y: Machine, e: Event, d: nat)
    requires Orderly(y) && Can(y, e) && !Stray(y, e) && d < |y.cpus| && d != Actor(y, e)
    ensures var z := Fire(y, e);
            z.cpus[d] == y.cpus[d] && CpuOK(z.states, z.cpus[d]) && (e.Choose? ==> Held(z.cpus[d]) != Some(e.p))
  {
    assert CpuOK(y.states, y.cpus[d]);
    var c := Actor(y, e);
    if c < |y.cpus| {
      assert CpuOK(y.states, y.cpus[c]);
      assert Held(y.cpus[c]).Some? ==> Held(y.cpus[c]) != Held(y.cpus[d]);
    }
  }

  lemma {:induction false} EventKeeps(y: Machine, e: Event)
    requires Orderly(y) && Can(y, e) && !Stray(y, e)
    ensures Orderly(Fire(y, e))
  {
    hide Fire, CpuOK, Held, Stray, Can;
    var z := Fire(y, e);
    SameCpus(y, e);
    if Actor(y, e) < |y.cpus| {
      ActorKeeps(y, e);
    }
    forall d | 0 <= d < |y.cpus| && d != Actor(y, e)
      ensures z.cpus[d] == y.cpus[d] && CpuOK(z.states, z.cpus[d]) && (e.Choose? ==> Held(z.cpus[d]) != Some(e.p))
    {
      OtherKeeps(y, e, d);
    }
  }

  lemma {:induction false} SameCpus(y: Machine, e: Event)
    requires Can(y, e)
    ensures |Fire(y, e).cpus| == |y.cpus| && |Fire(y, e).states| == |y.states|
  {
  }

  lemma {:induction false} RunKeeps(y: Machine, es: seq<Event>)
    requires Orderly(y) && IsRun(y, es) && NoStray(y, es)
    ensures Orderly(After(y, es))
    decreases |es|
  {
    hide Orderly, Fire, Can, Stray;
    if es != [] {
      EventKeeps(y, es[0]);
      RunKeeps(Fire(y, es[0]), es[1..]);
    }
  }

  /** In every run without a stray compare-and-swap, however the processors interleave, at most one
      of them is on a kernel stack at any time, and no stack is freed under one. */
  lemma {:induction false} OneProcessorPerStack(y: Machine, es: seq<Event>)
    requires Fresh(y) && IsRun(y, es) && NoStray(y, es)
    ensures Exclusive(After(y, es))
  {
    hide IsRun, NoStray, After, Orderly;
    FreshOrderly(y);
    RunKeeps(y, es);
    OrderlyExcludes(After(y, es));
  }

  // ---------- and only without ----------

  /** A slot that a process has left is some processor's to settle. */
  ghost predicate Attended(y: Machine) {
    forall p | 0 <= p < |y.states| && Left(y.states[p]) :: exists d | 0 <= d < |y.cpus| :: Held(y.cpus[d]) == Some(p)
  }

  lemma {:induction false} EventAttends(y: Machine, e: Event)
    requires Orderly(y) && Attended(y) && Can(y, e) && !Stray(y, e)
    ensures Attended(Fire(y, e))
  {
    var z := Fire(y, e);
    SameCpus(y, e);
    forall p | 0 <= p < |z.states| && Left(z.states[p])
      ensures exists d | 0 <= d < |z.cpus| :: Held(z.cpus[d]) == Some(p)
    {
      if e.Leave? && y.cpus[e.c].p == p {
        assert Held(z.cpus[e.c]) == Some(p);
      } else {
        assert Left(y.states[p]);
        var d :| 0 <= d < |y.cpus| && Held(y.cpus[d]) == Some(p);
        assert CpuOK(y.states, y.cpus[d]);
        assert Held(z.cpus[d]) == Some(p);
      }
    }
  }

  lemma {:induction false} RunAttends(y: Machine, es: seq<Event>)
    requires Orderly(y) && Attended(y) && IsRun(y, es) && NoStray(y, es)
    ensures Attended(After(y, es))
    decreases |es|
  {
    hide Orderly, Fire, Can, Stray, Attended;
    if es != [] {
      EventKeeps(y, es[0]);
      EventAttends(y, es[0]);
      RunAttends(Fire(y, es[0]), es[1..]);
    }
  }

  /** Without another stray compare-and-swap, exclusion can be lost from here. */
  ghost predicate Breaks(y: Machine, fs: seq<Event>) {
    IsRun(y, fs) && NoStray(y, fs) && !Exclusive(After(y, fs))
  }

  lemma {:induction false} BreaksAfter(y: Machine, e: Event, z: Machine, fs: seq<Event>)
    requires Can(y, e) && !Stray(y, e) && z == Fire(y, e) && Breaks(z, fs)
    ensures Breaks(y, [e] + fs)
  {
    assert ([e] + fs)[0] == e && ([e] + fs)[1..] == fs;
  }

  lemma {:induction false} BreaksNow(y: Machine)
    requires !Exclusive(y)
    ensures Breaks(y, [])
  {
  }

  /** wait frees the stack under processor d. */
  lemma {:induction false} FreedUnder(y: Machine, d: nat, p: nat) returns (fs: seq<Event>)
    requires d < |y.cpus| && p < |y.states| && y.cpus[d] == Leaving(p) && y.states[p] == ZOMBIE
    ensures Breaks(y, fs)
  {
    hide Breaks;
    var z := Fire(y, Free(p));
    assert StackOf(z.cpus[d]) == Some(p) && z.states[p] == UNUSED;
    BreaksNow(z);
    BreaksAfter(y, Free(p), z, []);
    fs := [Free(p)] + [];
  }

  /** Processor d has yet to settle p, and processor c has been running it meanwhile. */
  lemma {:induction false} SettledUnder(y: Machine, c: nat, d: nat, p: nat, j: nat) returns (fs: seq<Event>)
    requires c < |y.cpus| && d < |y.cpus| && c != d && p < |y.states| && y.states[p] == NEG_ZOMBIE
    requires y.cpus[c] == Leaving(p) && y.cpus[d] == Settling(p, j, false) && j <= 2
    ensures Breaks(y, fs)
    decreases 2 - j
  {
    hide Breaks;
    var z := Fire(y, Settle(d));
    var gs;
    if j == 2 {
      gs := FreedUnder(z, c, p);
    } else {
      gs := SettledUnder(z, c, d, p, j + 1);
    }
    BreaksAfter(y, Settle(d), z, gs);
    fs := [Settle(d)] + gs;
  }

  /** The processor has left p but not settled it. */
  predicate Unfinished(u: Cpu, p: nat) {
    u == Leaving(p) || (u.Settling? && u.p == p && !u.done && u.i <= 2)
  }

  /** Processor d is not finished with p, which another processor c can pick up. */
  lemma {:induction false} PickedUp(y: Machine, c: nat, d: nat, p: nat) returns (fs: seq<Event>)
    requires c < |y.cpus| && d < |y.cpus| && c != d && p < |y.states| && y.states[p] == RUNNABLE && y.cpus[c].Looking?
    requires Unfinished(y.cpus[d], p)
    ensures Breaks(y, fs)
  {
    hide Breaks;
    var y1 := Fire(y, Choose(c, p));
    var y2 := Fire(y1, Enter(c));
    var gs;
    if y.cpus[d] == Leaving(p) {
      assert StackOf(y2.cpus[c]) == StackOf(y2.cpus[d]) == Some(p);
      assert c < d || d < c;
      BreaksNow(y2);
      gs := [];
    } else {
      var y3 := Fire(y2, Leave(c, NEG_ZOMBIE));
      var hs := SettledUnder(y3, c, d, p, y.cpus[d].i);
      BreaksAfter(y2, Leave(c, NEG_ZOMBIE), y3, hs);
      gs := [Leave(c, NEG_ZOMBIE)] + hs;
    }
    BreaksAfter(y1, Enter(c), y2, gs);
    BreaksAfter(y, Choose(c, p), y1, [Enter(c)] + gs);
    fs := [Choose(c, p)] + ([Enter(c)] + gs);
  }

  lemma {:induction false} StrayBreaks(y: Machine, e: Event) returns (fs: seq<Event>)
    requires Orderly(y) && Attended(y) && Can(y, e) && Stray(y, e)
    ensures Breaks(Fire(y, e), fs)
  {
    hide Breaks, Orderly, Attended;
    var c, p, i := e.c, y.cpus[e.c].p, y.cpus[e.c].i;
    var d := Holder(y, c, p);
    var z := Fire(y, e);
    if i == 1 {
      var z1 := Fire(z, Awake(p));
      var z2 := Fire(z1, Settle(c));
      var gs := PickedUp(z2, c, d, p);
      BreaksAfter(z1, Settle(c), z2, gs);
      BreaksAfter(z, Awake(p), z1, [Settle(c)] + gs);
      fs := [Awake(p)] + ([Settle(c)] + gs);
    } else if y.cpus[d].Leaving? {
      fs := FreedUnder(z, d, p);
    } else {
      var z1 := Fire(z, Free(p));
      var z2 := Fire(z1, Make(p));
      var gs := PickedUp(z2, c, d, p);
      BreaksAfter(z1, Make(p), z2, gs);
      BreaksAfter(z, Free(p), z1, [Make(p)] + gs);
      fs := [Free(p)] + ([Make(p)] + gs);
    }
  }

  /** The other processor answerable for a slot that is still to be settled. */
  lemma {:induction false} Holder(y: Machine, c: nat, p: nat) returns (d: nat)
    requires Orderly(y) && Attended(y) && c < |y.cpus| && p < |y.states| && Left(y.states[p])
    requires y.cpus[c].Settling? && y.cpus[c].done && y.cpus[c].p == p
    ensures 1 <= y.cpus[c].i <= 2 && d < |y.cpus| && d != c
    ensures Unfinished(y.cpus[d], p)
  {
    d :| 0 <= d < |y.cpus| && Held(y.cpus[d]) == Some(p);
    assert CpuOK(y.states, y.cpus[d]) && CpuOK(y.states, y.cpus[c]);
  }

  /** Every continuation without a stray compare-and-swap keeps processors apart. */
  ghost predicate Survives(y: Machine) {
    forall fs | IsRun(y, fs) && NoStray(y, fs) :: Exclusive(After(y, fs))
  }

  lemma {:induction false} BreaksNotSurvives(y: Machine, fs: seq<Event>)
    requires Breaks(y, fs)
    ensures !Survives(y)
  {
    hide IsRun, NoStray, After, Exclusive;
    assert IsRun(y, fs) && NoStray(y, fs) && !Exclusive(After(y, fs));
  }

  lemma {:induction false} OrderlySurvives(y: Machine)
    requires Orderly(y)
    ensures Survives(y)
  {
    hide IsRun, NoStray, After, Exclusive, Orderly;
    forall fs | IsRun(y, fs) && NoStray(y, fs)
      ensures Exclusive(After(y, fs))
    {
      RunKeeps(y, fs);
      OrderlyExcludes(After(y, fs));
    }
  }

  /** Exactly the stray compare-and-swaps break exclusion: after a run without one, an enabled event is
      not stray if and only if the machine survives it. */
  lemma {:induction false} ExclusiveIff(y: Machine, es: seq<Event>, e: Event)
    requires Fresh(y) && IsRun(y, es) && NoStray(y, es) && Can(After(y, es), e)
    ensures !Stray(After(y, es), e) <==> Survives(Fire(After(y, es), e))
  {
    hide IsRun, NoStray, After, Fire, Can, Stray, Orderly, Attended, Survives, Breaks;
    FreshOrderly(y);
    RunKeeps(y, es);
    RunAttends(y, es);
    var x := After(y, es);
    if Stray(x, e) {
      var fs := StrayBreaks(x, e);
      BreaksNotSurvives(Fire(x, e), fs);
    } else {
      EventKeeps(x, e);
      OrderlySurvives(Fire(x, e));
    }
  }

  lemma {:induction false} FreshOrderly(y: Machine)
    requires Fresh(y)
    ensures Orderly(y) && Attended(y)
  {
  }

  lemma {:induction false} OrderlyExcludes(z: Machine)
    requires Orderly(z)
    ensures Exclusive(z)
  {
    forall c | 0 <= c < |z.cpus| && StackOf(z.cpus[c]).Some?
      ensures Held(z.cpus[c]) == StackOf(z.cpus[c]) && CpuOK(z.states, z.cpus[c])
    {
    }
  }

  // ---------- settling in one go ----------

  /** Between the compare-and-swaps of a visit. */
  predicate Midway(u: Cpu) {
    u.Settling? && u.i > 0
  }

  /** The next event, if any processor is midway, is its next compare-and-swap. */
  predicate Undisturbed(y: Machine, e: Event) {
    forall c | 0 <= c < |y.cpus| && Midway(y.cpus[c]) :: e == Settle(c)
  }

  /** The three compare-and-swaps of every visit follow each other in the run. */
  predicate Together(y: Machine, es: seq<Event>)
    requires IsRun(y, es)
    decreases |es|
  {
    es == [] || (Undisturbed(y, es[0]) && Together(Fire(y, es[0]), es[1..]))
  }

  /** What a processor midway has settled is still settled. */
  predicate Calm(y: Machine) {
    forall c | 0 <= c < |y.cpus| && Midway(y.cpus[c]) && y.cpus[c].done ::
      y.cpus[c].p < |y.states| && !Left(y.states[y.cpus[c].p])
  }

  lemma {:induction false} CalmStep(y: Machine, e: Event)
    requires Orderly(y) && Calm(y) && Can(y, e) && Undisturbed(y, e)
    ensures !Stray(y, e) && Calm(Fire(y, e))
  {
    var z := Fire(y, e);
    if e.Settle? {
      assert CpuOK(y.states, y.cpus[e.c]);
    }
    forall c | 0 <= c < |z.cpus| && Midway(z.cpus[c]) && z.cpus[c].done
      ensures z.cpus[c].p < |z.states| && !Left(z.states[z.cpus[c].p])
    {
      assert e == Settle(c);
    }
  }

  lemma {:induction false} TogetherKeeps(y: Machine, es: seq<Event>)
    requires Orderly(y) && Calm(y) && IsRun(y, es) && Together(y, es)
    ensures NoStray(y, es)
    decreases |es|
  {
    hide Orderly, Calm, Fire, Can, Stray, Undisturbed;
    if es != [] {
      CalmStep(y, es[0]);
      EventKeeps(y, es[0]);
      TogetherKeeps(Fire(y, es[0]), es[1..]);
    }
  }

  /** In every run in which the three compare-and-swaps of each visit follow each other, none is stray
      and processors stay apart. */
  lemma {:induction false} TogetherApart(y: Machine, es: seq<Event>)
    requires Fresh(y) && IsRun(y, es) && Together(y, es)
    ensures NoStray(y, es) && Exclusive(After(y, es))
  {
    hide IsRun, NoStray, After, Together, Orderly;
    FreshOrderly(y);
    assert Calm(y);
    TogetherKeeps(y, es);
    OneProcessorPerStack(y, es);
  }

  // ---------- with one ----------

  /** Processor 0 yields process 0 and settles it; processor 1 picks it up and lets it sleep; processor
      0's second compare-and-swap publishes the sleep while processor 1 is still on the stack, and
      after a wakeup processor 2 switches to the same stack. */
  function StrayRun(): (es: seq<Event>) {
    [Choose(0, 0), Enter(0), Leave(0, NEG_RUNNABLE), Swtch(0), Settle(0),
     Choose(1, 0), Enter(1), Leave(1, NEG_SLEEPING)]
    + [Settle(0), Awake(0), Choose(2, 0), Enter(2)]
  }

  lemma {:induction false} Link(y: Machine, e: Event, z: Machine, es: seq<Event>)
    requires Can(y, e) && Fire(y, e) == z && IsRun(z, es)
    ensures IsRun(y, [e] + es) && After(y, [e] + es) == After(z, es)
  {
    assert ([e] + es)[0] == e && ([e] + es)[1..] == es;
  }

  lemma {:induction false} Sleeping(es: seq<Event>)
    requires var y := Machine([NEG_SLEEPING], [Settling(0, 1, true), Leaving(0), Looking]); IsRun(y, es)
    ensures var y := Machine([RUNNABLE], [Settling(0, 1, true), Looking, Looking]);
            var all := [Choose(1, 0)] + ([Enter(1)] + ([Leave(1, NEG_SLEEPING)] + es));
            && IsRun(y, all)
            && After(y, all) == After(Machine([NEG_SLEEPING], [Settling(0, 1, true), Leaving(0), Looking]), es)
  {
    hide IsRun, After;
    var y5 := Machine([RUNNABLE], [Settling(0, 1, true), Looking, Looking]);
    var y6 := Machine([NEG_RUNNING], [Settling(0, 1, true), Chosen(0), Looking]);
    var y7 := Machine([RUNNING], [Settling(0, 1, true), On(0), Looking]);
    var y8 := Machine([NEG_SLEEPING], [Settling(0, 1, true), Leaving(0), Looking]);
    Link(y7, Leave(1, NEG_SLEEPING), y8, es);
    Link(y6, Enter(1), y7, [Leave(1, NEG_SLEEPING)] + es);
    Link(y5, Choose(1, 0), y6, [Enter(1)] + ([Leave(1, NEG_SLEEPING)] + es));
  }

  lemma {:induction false} Yielding(es: seq<Event>)
    requires var y := Machine([RUNNABLE], [Settling(0, 1, true), Looking, Looking]); IsRun(y, es)
    ensures var y := Machine([RUNNABLE], [Looking, Looking, Looking]);
            var all := [Choose(0, 0)] + ([Enter(0)] + ([Leave(0, NEG_RUNNABLE)] + ([Swtch(0)] + ([Settle(0)] + es))));
            && IsRun(y, all)
            && After(y, all) == After(Machine([RUNNABLE], [Settling(0, 1, true), Looking, Looking]), es)
  {
    hide IsRun, After;
    var y0 := Machine([RUNNABLE], [Looking, Looking, Looking]);
    var y1 := Machine([NEG_RUNNING], [Chosen(0), Looking, Looking]);
    var y2 := Machine([RUNNING], [On(0), Looking, Looking]);
    var y3 := Machine([NEG_RUNNABLE], [Leaving(0), Looking, Looking]);
    var y4 := Machine([NEG_RUNNABLE], [Settling(0, 0, false), Looking, Looking]);
    var y5 := Machine([RUNNABLE], [Settling(0, 1, true), Looking, Looking]);
    Link(y4, Settle(0), y5, es);
    Link(y3, Swtch(0), y4, [Settle(0)] + es);
    Link(y2, Leave(0, NEG_RUNNABLE), y3, [Swtch(0)] + ([Settle(0)] + es));
    Link(y1, Enter(0), y2, [Leave(0, NEG_RUNNABLE)] + ([Swtch(0)] + ([Settle(0)] + es)));
    Link(y0, Choose(0, 0), y1, [Enter(0)] + ([Leave(0, NEG_RUNNABLE)] + ([Swtch(0)] + ([Settle(0)] + es))));
  }

  lemma {:induction false} Sharing()
    ensures var y := Machine([NEG_SLEEPING], [Settling(0, 1, true), Leaving(0), Looking]);
            var es := [Settle(0)] + ([Awake(0)] + ([Choose(2, 0)] + ([Enter(2)] + [])));
            && IsRun(y, es)
            && After(y, es) == Machine([RUNNING], [Settling(0, 2, true), Leaving(0), On(0)])
  {
    var y8 := Machine([NEG_SLEEPING], [Settling(0, 1, true), Leaving(0), Looking]);
    var y9 := Machine([SLEEPING], [Settling(0, 2, true), Leaving(0), Looking]);
    var y10 := Machine([RUNNABLE], [Settling(0, 2, true), Leaving(0), Looking]);
    var y11 := Machine([NEG_RUNNING], [Settling(0, 2, true), Leaving(0), Chosen(0)]);
    var y12 := Machine([RUNNING], [Settling(0, 2, true), Leaving(0), On(0)]);
    assert IsRun(y12, []) && After(y12, []) == y12;
    hide IsRun, After;
    Link(y11, Enter(2), y12, []);
    Link(y10, Choose(2, 0), y11, [Enter(2)] + []);
    Link(y9, Awake(0), y10, [Choose(2, 0)] + ([Enter(2)] + []));
    Link(y8, Settle(0), y9, [Awake(0)] + ([Choose(2, 0)] + ([Enter(2)] + [])));
  }

  /** The three compare-and-swaps as the code has them do not keep processors apart. */
  lemma {:induction false} StrayRunShares()
    ensures var y := Machine([RUNNABLE], [Looking, Looking, Looking]);
            Fresh(y) && IsRun(y, StrayRun()) && !Exclusive(After(y, StrayRun()))
  {
    hide IsRun, After;
    Sharing();
    var last := [Settle(0)] + ([Awake(0)] + ([Choose(2, 0)] + ([Enter(2)] + [])));
    Sleeping(last);
    var middle := [Choose(1, 0)] + ([Enter(1)] + ([Leave(1, NEG_SLEEPING)] + last));
    Yielding(middle);
    var all := [Choose(0, 0)] + ([Enter(0)] + ([Leave(0, NEG_RUNNABLE)] + ([Swtch(0)] + ([Settle(0)] + middle))));
    assert all == StrayRun();
    var z := Machine([RUNNING], [Settling(0, 2, true), Leaving(0), On(0)]);
    assert StackOf(z.cpus[1]) == StackOf(z.cpus[2]);
  }
}
