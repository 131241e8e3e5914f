/** The process table of proc.c. No lock protects the state of a slot: every change is a
    compare-and-swap, and each compare-and-swap, each read of nextpid and each page taken or given
    back is one step here. Any number of activations run interleaved in any way. They are not tied
    to processors, and the tests of parent, chan and killed are dropped, so every run of the kernel
    is a run of this machine. */
module ProcTable {
  import opened Options

  datatype State =
    | UNUSED | EMBRYO | SLEEPING | RUNNABLE | RUNNING | ZOMBIE
    | NEG_UNUSED | NEG_SLEEPING | NEG_RUNNABLE | NEG_RUNNING | NEG_ZOMBIE

  /** The integer nextpid wraps here. */
  const WRAP := 0x1_0000_0000

  /** A slot of ptable. The number of the incarnation living there and the activation that last won
      a compare-and-swap on it are history. */
  datatype Slot = Slot(state: State, pid: nat, kstack: Option<nat>, inc: Option<nat>, holder: nat)

  /** Where an activation is. A number r beside a value read from nextpid counts the pids issued
      when it was read (history). */
  datatype Act =
    | Idle
    // allocproc, allocpid, fork
    | Scan(i: nat)
    | Pid0(s: nat)
    | Pid1(s: nat, old_: nat, r1: nat)
    | Pid2(s: nat, old_: nat, r1: nat, pid: nat, r2: nat)
    | Pid3(s: nat, old_: nat, r1: nat, pid: nat, r2: nat, new_: nat, r3: nat)
    | Stack(s: nat)
    | Copy(s: nat)
    | Drop(s: nat)
    | Publish(s: nat)
    // wait
    | Wait1(s: nat)
    | Wait2(s: nat)
    | Wait3(s: nat)
    | Reap(s: nat, pid: nat, k: nat)
    | Unlock(s: nat, pid: nat, k: nat)
    // scheduler
    | Look(s: nat)
    | Take(s: nat)
    | Won(s: nat)
    | Switched(s: nat)
    | Back1(s: nat)
    | Back2(s: nat)
    | Back3(s: nat)

  /** What became of an incarnation. */
  datatype Fate = In(s: nat) | Reaping(a: nat) | Returned | Dropped

  /** A pid returned to a caller, and the incarnation it names. */
  datatype Answer = Answer(k: nat, pid: nat)

  /** The machine; others are the pages that the rest of the kernel holds. The sequences issued (pids,
      in order of the winning compare-and-swap), fate, forks and waits (what fork and wait returned)
      and the set exited are history. */
  datatype Sys = Sys(slots: seq<Slot>, nextpid: nat, free: set<nat>, others: set<nat>, acts: seq<Act>, panicked: bool,
                     issued: seq<nat>, fate: seq<Fate>, exited: set<nat>, forks: seq<Answer>, waits: seq<Answer>)

  datatype Touch = Exit | Yield | Sleep | Wakeup

  datatype Step =
    | BeginFork(a: nat)
    | BeginWait(a: nat, s: nat)
    | BeginScheduler(a: nat, s: nat)
    | Go(a: nat)
    | GoPage(a: nat, page: nat)
    | GoFail(a: nat)
    | Do(s: nat, t: Touch)
    | Lend(page: nat)
    | Return(page: nat)

  // ---------- the steps ----------

  function Move(y: Sys, a: nat, act: Act): (z: Sys)
    requires a < |y.acts|
  {
    y.(acts := y.acts[a := act])
  }

  function Put(y: Sys, s: nat, slot: Slot): (z: Sys)
    requires s < |y.slots|
  {
    y.(slots := y.slots[s := slot])
  }

  /** The compare-and-swap that leaves the winner in charge of nothing. */
  function Cas(y: Sys, s: nat, from: State, to: State): (z: Sys)
    requires s < |y.slots|
  {
    if y.slots[s].state == from then Put(y, s, y.slots[s].(state := to)) else y
  }

  function Seize(y: Sys, a: nat, s: nat, from: State, to: State, won: Act, lost: Act): (z: Sys)
    requires s < |y.slots| && a < |y.acts|
  {
    if y.slots[s].state == from then
      Move(Put(y, s, y.slots[s].(state := to, holder := a)), a, won)
    else Move(y, a, lost)
  }

  /** allocpid's compare-and-swap; the winner also stores the pid in its slot. */
  function Number(y: Sys, a: nat): (z: Sys)
    requires a < |y.acts| && y.acts[a].Pid3? && y.acts[a].s < |y.slots|
  {
    var t := y.acts[a];
    if y.nextpid != t.old_ then Move(y, a, Pid0(t.s))
    else
      var slot := y.slots[t.s].(pid := t.pid, inc := Some(|y.issued|));
      Move(Put(y, t.s, slot), a, Stack(t.s)).(
        nextpid := t.new_, issued := y.issued + [t.pid], fate := y.fate + [In(t.s)])
  }

  function SetFate(y: Sys, k: Option<nat>, f: Fate): (z: Sys) {
    if k.Some? && k.value < |y.fate| then y.(fate := y.fate[k.value := f]) else y
  }

  function GivePage(y: Sys, page: Option<nat>): (z: Sys) {
    if page.Some? then y.(free := y.free + {page.value}) else y
  }

  function DropSlot(y: Sys, a: nat, s: nat): (z: Sys)
    requires a < |y.acts| && s < |y.slots|
  {
    var slot := y.slots[s];
    if slot.state == EMBRYO then
      SetFate(Move(Put(y, s, slot.(state := UNUSED, inc := None)), a, Idle), slot.inc, Dropped)
    else Move(y, a, Idle)
  }

  function PublishSlot(y: Sys, a: nat, s: nat): (z: Sys)
    requires a < |y.acts| && s < |y.slots|
  {
    var slot := y.slots[s];
    if slot.state != EMBRYO then y.(panicked := true)
    else
      var k := if slot.inc.Some? then slot.inc.value else 0;
      Move(Put(y, s, slot.(state := RUNNABLE)), a, Idle).(forks := y.forks + [Answer(k, slot.pid)])
  }

  function Claimed(y: Sys, a: nat, s: nat): (z: Sys)
    requires a < |y.acts| && s < |y.slots|
  {
    var slot := y.slots[s];
    if slot.state != ZOMBIE then Move(y, a, Wait1(s))
    else
      var k := if slot.inc.Some? then slot.inc.value else 0;
      SetFate(Move(Put(y, s, slot.(state := NEG_UNUSED, holder := a, inc := None)), a, Reap(s, slot.pid, k)),
              slot.inc, Reaping(a))
  }

  function UnlockSlot(y: Sys, a: nat): (z: Sys)
    requires a < |y.acts| && y.acts[a].Unlock? && y.acts[a].s < |y.slots|
  {
    var t := y.acts[a];
    var slot := y.slots[t.s];
    if slot.state != NEG_UNUSED then y.(panicked := true)
    else
      SetFate(Move(Put(y, t.s, slot.(state := UNUSED)), a, Idle), Some(t.k), Returned).(
        waits := y.waits + [Answer(t.k, t.pid)])
  }

  function WonSlot(y: Sys, a: nat, s: nat): (z: Sys)
    requires a < |y.acts| && s < |y.slots|
  {
    if y.slots[s].state != NEG_RUNNING then y.(panicked := true)
    else Move(Put(y, s, y.slots[s].(state := RUNNING)), a, Switched(s))
  }

  /** allocproc, allocpid and the end of fork. */
  function ForkStep(y: Sys, a: nat): (z: Sys)
    requires a < |y.acts| && InTable(y, y.acts[a])
  {
    match y.acts[a]
    case Scan(i) =>
      if i == |y.slots| then Move(y, a, Idle) else Seize(y, a, i, UNUSED, EMBRYO, Pid0(i), Scan(i + 1))
    case Pid0(s) => Move(y, a, Pid1(s, y.nextpid, |y.issued|))
    case Pid1(s, o, r) => Move(y, a, Pid2(s, o, r, (y.nextpid + 1) % WRAP, |y.issued|))
    case Pid2(s, o, r, p, r2) => Move(y, a, Pid3(s, o, r, p, r2, (y.nextpid + 1) % WRAP, |y.issued|))
    case Pid3(_, _, _, _, _, _, _) => Number(y, a)
    case Copy(s) => Move(y, a, Publish(s))
    case Drop(s) => DropSlot(y, a, s)
    case Publish(s) => PublishSlot(y, a, s)
    case _ => y
  }

  /** The inner loop of wait on one slot, and the reclaiming of a zombie. */
  function WaitStep(y: Sys, a: nat): (z: Sys)
    requires a < |y.acts| && InTable(y, y.acts[a])
  {
    match y.acts[a]
    case Wait1(s) => Move(y, a, if y.slots[s].state == NEG_ZOMBIE then Wait3(s) else Wait2(s))
    case Wait2(s) => Move(y, a, if y.slots[s].state == ZOMBIE then Wait3(s) else Idle)
    case Wait3(s) => Claimed(y, a, s)
    case Reap(s, p, k) =>
      Move(Put(GivePage(y, y.slots[s].kstack), s, y.slots[s].(kstack := None, pid := 0)), a, Unlock(s, p, k))
    case Unlock(_, _, _) => UnlockSlot(y, a)
    case _ => y
  }

  /** One round of the scheduler on one slot. */
  function SchedulerStep(y: Sys, a: nat): (z: Sys)
    requires a < |y.acts| && InTable(y, y.acts[a])
  {
    match y.acts[a]
    case Look(s) => Move(y, a, if y.slots[s].state == RUNNABLE then Take(s) else Idle)
    case Take(s) => Seize(y, a, s, RUNNABLE, NEG_RUNNING, Won(s), Idle)
    case Won(s) => WonSlot(y, a, s)
    case Switched(s) => Move(y, a, Back1(s))
    case Back1(s) => Move(Cas(y, s, NEG_RUNNABLE, RUNNABLE), a, Back2(s))
    case Back2(s) => Move(Cas(y, s, NEG_SLEEPING, SLEEPING), a, Back3(s))
    case Back3(s) => Move(Cas(y, s, NEG_ZOMBIE, ZOMBIE), a, Idle)
    case _ => y
  }

  predicate Waiting(t: Act) {
    t.Wait1? || t.Wait2? || t.Wait3? || t.Reap? || t.Unlock?
  }

  predicate Scheduling(t: Act) {
    t.Look? || t.Take? || t.Won? || t.Switched? || t.Back1? || t.Back2? || t.Back3?
  }

  /** The next step of activation a. */
  function Advance(y: Sys, a: nat): (z: Sys)
    requires a < |y.acts| && InTable(y, y.acts[a])
  {
    if Waiting(y.acts[a]) then WaitStep(y, a)
    else if Scheduling(y.acts[a]) then SchedulerStep(y, a)
    else ForkStep(y, a)
  }

  /** kalloc gave a page. */
  function Stacked(y: Sys, a: nat, page: nat): (z: Sys)
    requires a < |y.acts| && y.acts[a].Stack? && y.acts[a].s < |y.slots|
  {
    var s := y.acts[a].s;
    Move(Put(y, s, y.slots[s].(kstack := Some(page))), a, Copy(s)).(free := y.free - {page})
  }

  /** kalloc or copyuvm failed. */
  function Failed(y: Sys, a: nat): (z: Sys)
    requires a < |y.acts| && (y.acts[a].Stack? || y.acts[a].Copy?) && y.acts[a].s < |y.slots|
  {
    var s := y.acts[a].s;
    Move(Put(GivePage(y, y.slots[s].kstack), s, y.slots[s].(kstack := None)), a, Drop(s))
  }

  /** The steps a process takes on its own slot, and a wakeup by anyone. */
  function Touched(y: Sys, s: nat, t: Touch): (z: Sys)
    requires s < |y.slots|
  {
    match t
    case Exit =>
      var z := Cas(y, s, RUNNING, NEG_ZOMBIE);
      if y.slots[s].state == RUNNING && y.slots[s].inc.Some? then z.(exited := y.exited + {y.slots[s].inc.value})
      else z
    case Yield => Cas(y, s, RUNNING, NEG_RUNNABLE)
    case Sleep => Cas(y, s, RUNNING, NEG_SLEEPING)
    case Wakeup => Cas(y, s, SLEEPING, RUNNABLE)
  }

  predicate InTable(y: Sys, t: Act) {
    match t
    case Idle => true
    case Scan(i) => i <= |y.slots|
    case _ => t.s < |y.slots|
  }

  predicate Enabled(y: Sys, st: Step) {
    !y.panicked
    && match st
       case BeginFork(a) => a < |y.acts| && y.acts[a].Idle?
       case BeginWait(a, s) => a < |y.acts| && y.acts[a].Idle? && s < |y.slots|
       case BeginScheduler(a, s) => a < |y.acts| && y.acts[a].Idle? && s < |y.slots|
       case Go(a) => a < |y.acts| && InTable(y, y.acts[a])
       case GoPage(a, page) => a < |y.acts| && InTable(y, y.acts[a]) && y.acts[a].Stack? && page in y.free
       case GoFail(a) => a < |y.acts| && InTable(y, y.acts[a]) && (y.acts[a].Stack? || y.acts[a].Copy?)
       case Do(s, _) => s < |y.slots|
       case Lend(page) => page in y.free
       case Return(page) => page in y.others
  }

  function Next(y: Sys, st: Step): (z: Sys)
    requires Enabled(y, st)
  {
    match st
    case BeginFork(a) => Move(y, a, Scan(0))
    case BeginWait(a, s) => Move(y, a, Wait1(s))
    case BeginScheduler(a, s) => Move(y, a, Look(s))
    case Go(a) => Advance(y, a)
    case GoPage(a, page) => Stacked(y, a, page)
    case GoFail(a) => Failed(y, a)
    case Do(s, t) => Touched(y, s, t)
    case Lend(page) => y.(free := y.free - {page}, others := y.others + {page})
    case Return(page) => y.(free := y.free + {page}, others := y.others - {page})
  }

  // ---------- the states a slot goes through ----------

  /** A change of state: the slot, the state it must be in and the state it gets. */
  datatype Arrow = Nothing | Arrow(s: nat, from: State, to: State)

  /** The state diagram: what each step does to the state of a slot. */
  function Diagram(t: Act): (r: Arrow) {
    match t
    case Scan(i) => Arrow(i, UNUSED, EMBRYO)
    case Drop(s) => Arrow(s, EMBRYO, UNUSED)
    case Publish(s) => Arrow(s, EMBRYO, RUNNABLE)
    case Wait3(s) => Arrow(s, ZOMBIE, NEG_UNUSED)
    case Unlock(s, _, _) => Arrow(s, NEG_UNUSED, UNUSED)
    case Take(s) => Arrow(s, RUNNABLE, NEG_RUNNING)
    case Won(s) => Arrow(s, NEG_RUNNING, RUNNING)
    case Back1(s) => Arrow(s, NEG_RUNNABLE, RUNNABLE)
    case Back2(s) => Arrow(s, NEG_SLEEPING, SLEEPING)
    case Back3(s) => Arrow(s, NEG_ZOMBIE, ZOMBIE)
    case _ => Nothing
  }

  function ArrowOf(y: Sys, st: Step): (r: Arrow)
    requires Enabled(y, st)
  {
    match st
    case Go(a) => Diagram(y.acts[a])
    case Do(s, Exit) => Arrow(s, RUNNING, NEG_ZOMBIE)
    case Do(s, Yield) => Arrow(s, RUNNING, NEG_RUNNABLE)
    case Do(s, Sleep) => Arrow(s, RUNNING, NEG_SLEEPING)
    case Do(s, Wakeup) => Arrow(s, SLEEPING, RUNNABLE)
    case _ => Nothing
  }

  /** Every step moves the slot of its arrow along it, if it is in the right state, and no other. */
  lemma {:induction false} StepFollowsDiagram(y: Sys, st: Step, s: nat)
    requires Enabled(y, st) && s < |y.slots|
    ensures Follows(y, Next(y, st), ArrowOf(y, st), s)
  {
    hide Advance;
    if st.Go? {
      GoFollowsDiagram(y, st.a, s);
    }
  }

  /** Slot s of z is as the arrow says. */
  predicate Follows(y: Sys, z: Sys, w: Arrow, s: nat) {
    && s < |y.slots| == |z.slots|
    && z.slots[s].state ==
       if w.Arrow? && w.s == s && y.slots[s].state == w.from then w.to else y.slots[s].state
  }

  lemma {:induction false} GoFollowsDiagram(y: Sys, a: nat, s: nat)
    requires a < |y.acts| && InTable(y, y.acts[a]) && s < |y.slots|
    ensures Follows(y, Advance(y, a), Diagram(y.acts[a]), s)
  {
    hide Follows, Diagram, WaitStep, SchedulerStep, ForkStep;
    if Waiting(y.acts[a]) {
      WaitFollows(y, a, s);
    } else if Scheduling(y.acts[a]) {
      SchedulerFollows(y, a, s);
    } else {
      ForkFollows(y, a, s);
    }
  }

  lemma {:induction false} WaitFollows(y: Sys, a: nat, s: nat)
    requires a < |y.acts| && InTable(y, y.acts[a]) && s < |y.slots| && Waiting(y.acts[a])
    ensures Follows(y, WaitStep(y, a), Diagram(y.acts[a]), s)
  {
  }

  lemma {:induction false} SchedulerFollows(y: Sys, a: nat, s: nat)
    requires a < |y.acts| && InTable(y, y.acts[a]) && s < |y.slots| && Scheduling(y.acts[a])
    ensures Follows(y, SchedulerStep(y, a), Diagram(y.acts[a]), s)
  {
  }

  lemma {:induction false} ForkFollows(y: Sys, a: nat, s: nat)
    requires a < |y.acts| && InTable(y, y.acts[a]) && s < |y.slots|
    requires !Waiting(y.acts[a]) && !Scheduling(y.acts[a])
    ensures Follows(y, ForkStep(y, a), Diagram(y.acts[a]), s)
  {
  }

  // ---------- what every run keeps ----------

  predicate Guarded(st: State) {
    st == EMBRYO || st == NEG_UNUSED || st == NEG_RUNNING
  }

  predicate Dead(st: State) {
    st == ZOMBIE || st == NEG_ZOMBIE
  }

  predicate Alive(st: State) {
    st != UNUSED && st != EMBRYO && st != NEG_UNUSED
  }

  /** The slot an activation has to itself, and the state that says so. */
  function Claim(t: Act): (c: Option<(nat, State)>) {
    match t
    case Pid0(s) => Some((s, EMBRYO))
    case Pid1(s, _, _) => Some((s, EMBRYO))
    case Pid2(s, _, _, _, _) => Some((s, EMBRYO))
    case Pid3(s, _, _, _, _, _, _) => Some((s, EMBRYO))
    case Stack(s) => Some((s, EMBRYO))
    case Copy(s) => Some((s, EMBRYO))
    case Drop(s) => Some((s, EMBRYO))
    case Publish(s) => Some((s, EMBRYO))
    case Reap(s, _, _) => Some((s, NEG_UNUSED))
    case Unlock(s, _, _) => Some((s, NEG_UNUSED))
    case Won(s) => Some((s, NEG_RUNNING))
    case _ => None
  }

  predicate Numbered(t: Act) {
    t.Stack? || t.Copy? || t.Drop? || t.Publish?
  }

  predicate OwnsStack(t: Act) {
    t.Copy? || t.Publish? || t.Reap?
  }

  predicate SlotOK(y: Sys, s: nat)
    requires s < |y.slots| && |y.fate| == |y.issued|
  {
    var x := y.slots[s];
    && (Guarded(x.state) ==> x.holder < |y.acts| && Claim(y.acts[x.holder]) == Some((s, x.state)))
    && (x.state == UNUSED ==> x.inc.None? && x.kstack.None?)
    && (x.state == NEG_UNUSED ==> x.inc.None?)
    && (Alive(x.state) ==> x.inc.Some? && x.kstack.Some?)
    && (x.inc.Some? ==>
          && x.inc.value < |y.issued| && y.fate[x.inc.value] == In(s) && x.pid == y.issued[x.inc.value]
          && (x.inc.value in y.exited <==> Dead(x.state)))
    && (x.kstack.Some? ==> x.kstack.value !in y.free && x.kstack.value !in y.others)
  }

  predicate ActOK(y: Sys, a: nat)
    requires a < |y.acts| && |y.fate| == |y.issued|
  {
    var t := y.acts[a];
    && InTable(y, t)
    && (Claim(t).Some? ==>
          var x := y.slots[t.s];
          && x.state == Claim(t).value.1 && x.holder == a
          && (x.state == EMBRYO ==> (x.inc.Some? <==> Numbered(t)))
          && (x.state != NEG_RUNNING ==> (x.kstack.Some? <==> OwnsStack(t))))
    && (t.Reap? || t.Unlock? ==> t.k < |y.fate| && y.fate[t.k] == Reaping(a) && t.pid == y.issued[t.k])
  }

  predicate FateOK(y: Sys, k: nat)
    requires k < |y.fate|
  {
    match y.fate[k]
    case In(s) => s < |y.slots| && y.slots[s].inc == Some(k)
    case Reaping(a) =>
      && a < |y.acts| && (y.acts[a].Reap? || y.acts[a].Unlock?) && y.acts[a].k == k && k in y.exited
    case Returned => k in y.exited
    case Dropped => k !in y.exited
  }

  predicate Shape(y: Sys) {
    |y.slots| > 0 && |y.fate| == |y.issued| && forall k | k in y.exited :: k < |y.issued|
  }

  /** Slots, activations and incarnations agree about who owns what. */
  predicate Owned(y: Sys) {
    && Shape(y)
    && (forall s | 0 <= s < |y.slots| :: SlotOK(y, s))
    && (forall a | 0 <= a < |y.acts| :: ActOK(y, a))
    && (forall k | 0 <= k < |y.fate| :: FateOK(y, k))
  }

  /** No two slots have the same kernel stack, and no page is both free and in use elsewhere. */
  predicate Apart(y: Sys) {
    && y.free !! y.others
    && forall s, u | 0 <= s < u < |y.slots| && y.slots[s].kstack.Some? && y.slots[u].kstack.Some? ::
      y.slots[s].kstack != y.slots[u].kstack
  }

  /** Every page that is free, in use elsewhere, or some process's kernel stack. */
  function Pages(y: Sys): (ps: set<nat>) {
    y.free + y.others + set s | 0 <= s < |y.slots| && y.slots[s].kstack.Some? :: y.slots[s].kstack.value
  }

  /** The process has been made runnable at some time. */
  predicate Published(y: Sys, k: nat)
    requires k < |y.fate|
  {
    match y.fate[k]
    case In(s) => s < |y.slots| && y.slots[s].state != EMBRYO
    case Reaping(_) => true
    case Returned => true
    case Dropped => false
  }

  /** Incarnation p, if any, is published and r, if any, is returned by this step, and no other. */
  predicate Told(y: Sys, z: Sys, p: Option<nat>, r: Option<nat>) {
    && |y.fate| <= |z.fate|
    && (forall j | 0 <= j < |z.fate| :: Published(z, j) <==> p == Some(j) || (j < |y.fate| && Published(y, j)))
    && (forall j | 0 <= j < |z.fate| :: z.fate[j].Returned? <==> r == Some(j) || (j < |y.fate| && y.fate[j].Returned?))
    && (p.Some? ==> p.value < |y.fate| && !Published(y, p.value))
    && (r.Some? ==> r.value < |y.fate| && y.fate[r.value].Reaping?)
  }

  predicate Kept(y: Sys, z: Sys, p: Option<nat>, r: Option<nat>) {
    Owned(z) && Apart(z) && Pages(z) == Pages(y) && Told(y, z, p, r)
  }

  // ---------- a step changes one activation, one slot and one incarnation ----------

  /** A page is taken from the free pages, given back, or neither. */
  predicate Books(y: Sys, z: Sys, s: nat)
    requires s < |y.slots| == |z.slots|
  {
    var x, x' := y.slots[s].kstack, z.slots[s].kstack;
    && z.others == y.others
    && (|| (x == x' && z.free == y.free)
        || (x.None? && x'.Some? && x'.value in y.free && z.free == y.free - {x'.value})
        || (x.Some? && x'.None? && z.free == y.free + {x.value}))
  }

  predicate SameButOne(y: Sys, z: Sys, a: nat, s: nat, k: nat) {
    && |z.slots| == |y.slots| && |z.acts| == |y.acts| && s < |y.slots| && |y.issued| <= |z.issued|
    && (forall u | 0 <= u < |y.slots| && u != s :: z.slots[u] == y.slots[u])
    && (forall b | 0 <= b < |y.acts| && b != a :: z.acts[b] == y.acts[b])
    && (|z.fate| == |y.fate| || (k == |y.fate| && |z.fate| == k + 1))
    && (forall j | 0 <= j < |y.fate| && j != k :: z.fate[j] == y.fate[j])
    && (forall j | 0 <= j < |y.issued| :: z.issued[j] == y.issued[j])
    && (forall j | j in z.exited + y.exited :: j == k || (j in z.exited && j in y.exited))
  }

  /** The step is the business of activation a, slot s and incarnation k alone. */
  predicate Local(y: Sys, z: Sys, a: nat, s: nat, k: nat)
    requires Shape(y) && Shape(z)
  {
    && SameButOne(y, z, a, s, k)
    && (a < |y.acts| && Claim(y.acts[a]).Some? ==> y.acts[a].s == s)
    && (Guarded(y.slots[s].state) ==> z.slots[s] == y.slots[s] || y.slots[s].holder == a)
    && (k < |y.fate| ==> z.fate[k] == y.fate[k] || y.fate[k] == In(s) || y.fate[k] == Reaping(a))
    && (k < |y.fate| && (k in y.exited) != (k in z.exited) ==> y.fate[k] == In(s))
    && (z.slots[s].inc == y.slots[s].inc || y.slots[s].inc.None? || y.slots[s].inc == Some(k))
    && (a < |y.acts| && (y.acts[a].Reap? || y.acts[a].Unlock?) ==>
          y.acts[a].k == k || ((z.acts[a].Reap? || z.acts[a].Unlock?) && z.acts[a].k == y.acts[a].k))
    && ((z.slots[s].state == EMBRYO) == (y.slots[s].state == EMBRYO)
        || y.slots[s].inc.None? || y.slots[s].inc == Some(k))
    && Books(y, z, s)
  }

  /** The three parties are in order afterwards. */
  predicate LocalOK(z: Sys, a: nat, s: nat, k: nat)
    requires Shape(z) && s < |z.slots|
  {
    SlotOK(z, s) && (a < |z.acts| ==> ActOK(z, a)) && (k < |z.fate| ==> FateOK(z, k))
  }

  /** What the step tells about incarnation k. */
  predicate LocalTold(y: Sys, z: Sys, k: nat, p: Option<nat>, r: Option<nat>) {
    && (p.Some? ==> p.value == k < |y.fate| && !Published(y, k))
    && (r.Some? ==> r.value == k < |y.fate| && y.fate[k].Reaping?)
    && (k < |z.fate| ==> (Published(z, k) <==> p.Some? || (k < |y.fate| && Published(y, k))))
    && (k < |z.fate| ==> (z.fate[k].Returned? <==> r.Some? || (k < |y.fate| && y.fate[k].Returned?)))
  }

  lemma {:induction false} OtherTold(y: Sys, z: Sys, a: nat, s: nat, k: nat, p: Option<nat>, r: Option<nat>)
    requires Owned(y) && Shape(z) && Local(y, z, a, s, k) && LocalTold(y, z, k, p, r)
    ensures Told(y, z, p, r)
  {
    hide SlotOK, ActOK;
    forall j | 0 <= j < |z.fate|
      ensures Published(z, j) <==> p == Some(j) || (j < |y.fate| && Published(y, j))
      ensures z.fate[j].Returned? <==> r == Some(j) || (j < |y.fate| && y.fate[j].Returned?)
    {
      if j != k {
        assert FateOK(y, j) && z.fate[j] == y.fate[j];
      }
    }
  }

  lemma {:induction false} OtherSlot(y: Sys, z: Sys, a: nat, s: nat, k: nat, u: nat)
    requires Owned(y) && Apart(y) && Shape(z) && Local(y, z, a, s, k)
    requires u < |y.slots| && u != s
    ensures SlotOK(z, u)
  {
    assert SlotOK(y, u) && z.slots[u] == y.slots[u];
    assert y.slots[u].kstack.Some? && y.slots[s].kstack.Some? ==> y.slots[u].kstack != y.slots[s].kstack;
  }

  lemma {:induction false} OtherAct(y: Sys, z: Sys, a: nat, s: nat, k: nat, b: nat)
    requires Owned(y) && Shape(z) && Local(y, z, a, s, k)
    requires b < |y.acts| && b != a
    ensures ActOK(z, b)
  {
    assert ActOK(y, b) && z.acts[b] == y.acts[b];
  }

  lemma {:induction false} OtherFate(y: Sys, z: Sys, a: nat, s: nat, k: nat, j: nat)
    requires Owned(y) && Shape(z) && Local(y, z, a, s, k)
    requires j < |y.fate| && j != k
    ensures FateOK(z, j)
  {
    assert FateOK(y, j) && z.fate[j] == y.fate[j];
  }

  lemma {:induction false} LocalKeeps(y: Sys, z: Sys, a: nat, s: nat, k: nat, p: Option<nat>, r: Option<nat>)
    requires Owned(y) && Apart(y) && Shape(z) && Local(y, z, a, s, k)
    requires LocalOK(z, a, s, k) && LocalTold(y, z, k, p, r)
    ensures Kept(y, z, p, r)
  {
    forall u | 0 <= u < |z.slots|
      ensures SlotOK(z, u)
    {
      if u != s {
        OtherSlot(y, z, a, s, k, u);
      }
    }
    forall b | 0 <= b < |z.acts|
      ensures ActOK(z, b)
    {
      if b != a {
        OtherAct(y, z, a, s, k, b);
      }
    }
    forall j | 0 <= j < |z.fate|
      ensures FateOK(z, j)
    {
      if j != k {
        OtherFate(y, z, a, s, k, j);
      }
    }
    LocalApart(y, z, a, s, k);
    LocalPages(y, z, a, s, k);
    OtherTold(y, z, a, s, k, p, r);
  }

  lemma {:induction false} LocalApart(y: Sys, z: Sys, a: nat, s: nat, k: nat)
    requires Owned(y) && Apart(y) && Shape(z) && Local(y, z, a, s, k)
    ensures Apart(z)
  {
    hide ActOK, FateOK, Claim, Guarded;
    assert SlotOK(y, s);
    forall u, v | 0 <= u < v < |z.slots| && z.slots[u].kstack.Some? && z.slots[v].kstack.Some?
      ensures z.slots[u].kstack != z.slots[v].kstack
    {
      assert SlotOK(y, u) && SlotOK(y, v);
    }
  }

  lemma {:induction false} LocalPages(y: Sys, z: Sys, a: nat, s: nat, k: nat)
    requires Owned(y) && Shape(z) && Local(y, z, a, s, k)
    ensures Pages(z) == Pages(y)
  {
    hide ActOK, FateOK, SlotOK, Claim, Guarded;
    PagesWithin(y, z, a, s, k);
    PagesCovered(y, z, a, s, k);
  }

  lemma {:induction false} PagesWithin(y: Sys, z: Sys, a: nat, s: nat, k: nat)
    requires Shape(y) && Shape(z) && Local(y, z, a, s, k)
    ensures Pages(z) <= Pages(y)
  {
    hide Claim, Guarded;
    forall pg | pg in Pages(z)
      ensures pg in Pages(y)
    {
      if pg !in z.free && pg !in z.others {
        var u :| 0 <= u < |z.slots| && z.slots[u].kstack == Some(pg);
        assert u == s || y.slots[u].kstack == Some(pg);
      } else if pg !in y.free && pg !in y.others {
        assert y.slots[s].kstack == Some(pg);
      }
    }
  }

  lemma {:induction false} PagesCovered(y: Sys, z: Sys, a: nat, s: nat, k: nat)
    requires Shape(y) && Shape(z) && Local(y, z, a, s, k)
    ensures Pages(y) <= Pages(z)
  {
    hide Claim, Guarded;
    forall pg | pg in Pages(y)
      ensures pg in Pages(z)
    {
      if pg !in y.free && pg !in y.others {
        var u :| 0 <= u < |y.slots| && y.slots[u].kstack == Some(pg);
        assert u == s || z.slots[u].kstack == Some(pg);
      } else if pg !in z.free && pg !in z.others {
        assert z.slots[s].kstack == Some(pg);
      }
    }
  }

  // ---------- each kind of step ----------

  predicate Good(y: Sys) {
    Owned(y) && Apart(y)
  }

  lemma {:induction false} SlotPart(y: Sys, s: nat)
    requires Good(y) && s < |y.slots|
    ensures Shape(y) && SlotOK(y, s)
  {
  }

  lemma {:induction false} Parts(y: Sys, a: nat, s: nat)
    requires Good(y) && a < |y.acts| && (s < |y.slots| || (Claim(y.acts[a]).Some? && s == y.acts[a].s))
    ensures Shape(y) && ActOK(y, a) && s < |y.slots| && SlotOK(y, s) && y.free !! y.others
  {
    assert ActOK(y, a);
  }

  lemma {:induction false} FatePart(y: Sys, k: nat)
    requires Good(y) && k < |y.fate|
    ensures FateOK(y, k)
  {
  }

  /** An activation goes on without touching a slot. */
  lemma {:induction false} MoveKeeps(y: Sys, a: nat, act: Act)
    requires Good(y) && a < |y.acts| && InTable(y, act)
    requires Claim(act) == Claim(y.acts[a]) && Numbered(act) == Numbered(y.acts[a])
    requires OwnsStack(act) == OwnsStack(y.acts[a])
    requires !act.Reap? && !act.Unlock? && !y.acts[a].Reap? && !y.acts[a].Unlock?
    ensures Kept(y, Move(y, a, act), None, None)
  {
    var s := if Claim(act).Some? then act.s else 0;
    assert ActOK(y, a) && SlotOK(y, s);
    LocalKeeps(y, Move(y, a, act), a, s, |y.fate|, None, None);
  }

  lemma {:induction false} SeizeKeeps(y: Sys, a: nat, s: nat, from: State, to: State, won: Act)
    requires Good(y) && a < |y.acts| && s < |y.slots| && y.slots[s].state == from && Claim(y.acts[a]).None?
    requires || (from == UNUSED && to == EMBRYO && won == Pid0(s))
             || (from == RUNNABLE && to == NEG_RUNNING && won == Won(s))
    ensures Kept(y, Seize(y, a, s, from, to, won, Idle), None, None)
  {
    hide Owned, Apart, Pages, Told;
    Parts(y, a, s);
    LocalKeeps(y, Seize(y, a, s, from, to, won, Idle), a, s, |y.fate|, None, None);
  }

  lemma {:induction false} NumberKeeps(y: Sys, a: nat)
    requires Good(y) && a < |y.acts| && y.acts[a].Pid3? && y.acts[a].s < |y.slots| && y.nextpid == y.acts[a].old_
    ensures Kept(y, Number(y, a), None, None)
  {
    hide Owned, Apart, Pages, Told;
    Parts(y, a, y.acts[a].s);
    LocalKeeps(y, Number(y, a), a, y.acts[a].s, |y.fate|, None, None);
  }

  lemma {:induction false} StackedKeeps(y: Sys, a: nat, page: nat)
    requires Good(y) && Enabled(y, GoPage(a, page))
    ensures Kept(y, Stacked(y, a, page), None, None)
  {
    hide Owned, Apart, Pages, Told;
    Parts(y, a, y.acts[a].s);
    LocalKeeps(y, Stacked(y, a, page), a, y.acts[a].s, |y.fate|, None, None);
  }

  lemma {:induction false} FailedKeeps(y: Sys, a: nat)
    requires Good(y) && Enabled(y, GoFail(a))
    ensures Kept(y, Failed(y, a), None, None)
  {
    hide Owned, Apart, Pages, Told;
    Parts(y, a, y.acts[a].s);
    LocalKeeps(y, Failed(y, a), a, y.acts[a].s, |y.fate|, None, None);
  }

  /** The compare-and-swap that gives the slot up always succeeds. */
  lemma {:induction false} DropKeeps(y: Sys, a: nat, s: nat)
    requires Good(y) && a < |y.acts| && y.acts[a] == Drop(s)
    ensures s < |y.slots| && y.slots[s].state == EMBRYO && Kept(y, DropSlot(y, a, s), None, None)
  {
    hide Owned, Apart, Pages, Told;
    Parts(y, a, s);
    LocalKeeps(y, DropSlot(y, a, s), a, s, y.slots[s].inc.value, None, None);
  }

  /** The guard of fork and userinit never fails. */
  lemma {:induction false} PublishKeeps(y: Sys, a: nat, s: nat)
    requires Good(y) && a < |y.acts| && y.acts[a] == Publish(s)
    ensures s < |y.slots| && y.slots[s].state == EMBRYO && Kept(y, PublishSlot(y, a, s), y.slots[s].inc, None)
  {
    hide Owned, Apart, Pages, Told;
    Parts(y, a, s);
    LocalKeeps(y, PublishSlot(y, a, s), a, s, y.slots[s].inc.value, y.slots[s].inc, None);
  }

  lemma {:induction false} ClaimedKeeps(y: Sys, a: nat, s: nat)
    requires Good(y) && a < |y.acts| && y.acts[a] == Wait3(s) && s < |y.slots| && y.slots[s].state == ZOMBIE
    ensures Kept(y, Claimed(y, a, s), None, None)
  {
    hide Owned, Apart, Pages, Told;
    Parts(y, a, s);
    LocalKeeps(y, Claimed(y, a, s), a, s, y.slots[s].inc.value, None, None);
  }

  lemma {:induction false} ReapKeeps(y: Sys, a: nat)
    requires Good(y) && a < |y.acts| && y.acts[a].Reap? && y.acts[a].s < |y.slots|
    ensures Kept(y, Advance(y, a), None, None)
  {
    hide Owned, Apart, Pages, Told;
    Parts(y, a, y.acts[a].s);
    FatePart(y, y.acts[a].k);
    LocalKeeps(y, Advance(y, a), a, y.acts[a].s, y.acts[a].k, None, None);
  }

  /** The guard of wait never fails. */
  lemma {:induction false} UnlockKeeps(y: Sys, a: nat)
    requires Good(y) && a < |y.acts| && y.acts[a].Unlock?
    ensures y.acts[a].s < |y.slots| && y.slots[y.acts[a].s].state == NEG_UNUSED
    ensures Kept(y, UnlockSlot(y, a), None, Some(y.acts[a].k))
  {
    hide Owned, Apart, Pages, Told;
    Parts(y, a, y.acts[a].s);
    FatePart(y, y.acts[a].k);
    LocalKeeps(y, UnlockSlot(y, a), a, y.acts[a].s, y.acts[a].k, None, Some(y.acts[a].k));
  }

  /** The guard of the scheduler never fails. */
  lemma {:induction false} WonKeeps(y: Sys, a: nat, s: nat)
    requires Good(y) && a < |y.acts| && y.acts[a] == Won(s)
    ensures s < |y.slots| && y.slots[s].state == NEG_RUNNING && Kept(y, WonSlot(y, a, s), None, None)
  {
    hide Owned, Apart, Pages, Told;
    Parts(y, a, s);
    LocalKeeps(y, WonSlot(y, a, s), a, s, |y.fate|, None, None);
  }

  /** A compare-and-swap between states nobody owns and that do not cross death. */
  lemma {:induction false} CasKeeps(y: Sys, s: nat, from: State, to: State)
    requires Good(y) && s < |y.slots| && Alive(from) && Alive(to) && !Guarded(from) && !Guarded(to)
    requires Dead(from) == Dead(to)
    ensures Kept(y, Cas(y, s, from, to), None, None)
  {
    hide Owned, Apart, Pages, Told;
    SlotPart(y, s);
    LocalKeeps(y, Cas(y, s, from, to), |y.acts|, s, |y.fate|, None, None);
  }

  lemma {:induction false} ExitKeeps(y: Sys, s: nat)
    requires Good(y) && s < |y.slots| && y.slots[s].state == RUNNING
    ensures y.slots[s].inc.Some? && Kept(y, Touched(y, s, Exit), None, None)
  {
    hide Owned, Apart, Pages, Told;
    SlotPart(y, s);
    LocalKeeps(y, Touched(y, s, Exit), |y.acts|, s, y.slots[s].inc.value, None, None);
  }

  // ---------- every step ----------

  /** Which incarnation a step publishes, and which one it returns from wait. */
  function PublishedBy(y: Sys, st: Step): (k: Option<nat>) {
    if st.Go? && st.a < |y.acts| && y.acts[st.a].Publish? && y.acts[st.a].s < |y.slots|
    then y.slots[y.acts[st.a].s].inc else None
  }

  function ReturnedBy(y: Sys, st: Step): (k: Option<nat>) {
    if st.Go? && st.a < |y.acts| && y.acts[st.a].Unlock? then Some(y.acts[st.a].k) else None
  }

  lemma {:induction false} ForkKeeps(y: Sys, a: nat)
    requires Good(y) && a < |y.acts| && InTable(y, y.acts[a]) && !y.panicked
    requires !Waiting(y.acts[a]) && !Scheduling(y.acts[a])
    ensures Kept(y, ForkStep(y, a), PublishedBy(y, Go(a)), None) && !ForkStep(y, a).panicked
  {
    hide Owned, Apart, Pages, Kept, Good;
    match y.acts[a]
    case Scan(i) =>
      if i < |y.slots| && y.slots[i].state == UNUSED {
        SeizeKeeps(y, a, i, UNUSED, EMBRYO, Pid0(i));
      } else {
        MoveKeeps(y, a, if i == |y.slots| then Idle else Scan(i + 1));
      }
    case Pid0(s) => MoveKeeps(y, a, Pid1(s, y.nextpid, |y.issued|));
    case Pid1(s, o, r) => MoveKeeps(y, a, Pid2(s, o, r, (y.nextpid + 1) % WRAP, |y.issued|));
    case Pid2(s, o, r, p, r2) => MoveKeeps(y, a, Pid3(s, o, r, p, r2, (y.nextpid + 1) % WRAP, |y.issued|));
    case Pid3(s, o, _, _, _, _, _) =>
      if y.nextpid == o {
        NumberKeeps(y, a);
      } else {
        MoveKeeps(y, a, Pid0(s));
      }
    case Copy(s) => MoveKeeps(y, a, Publish(s));
    case Drop(s) => DropKeeps(y, a, s);
    case Publish(s) => PublishKeeps(y, a, s);
    case Idle => NothingKeeps(y);
    case Stack(_) => NothingKeeps(y);
  }

  lemma {:induction false} WaitKeeps(y: Sys, a: nat)
    requires Good(y) && a < |y.acts| && InTable(y, y.acts[a]) && !y.panicked && Waiting(y.acts[a])
    ensures Kept(y, WaitStep(y, a), None, ReturnedBy(y, Go(a))) && !WaitStep(y, a).panicked
  {
    hide Owned, Apart, Pages, Kept, Good;
    match y.acts[a]
    case Wait1(s) => MoveKeeps(y, a, if y.slots[s].state == NEG_ZOMBIE then Wait3(s) else Wait2(s));
    case Wait2(s) => MoveKeeps(y, a, if y.slots[s].state == ZOMBIE then Wait3(s) else Idle);
    case Wait3(s) =>
      if y.slots[s].state == ZOMBIE {
        ClaimedKeeps(y, a, s);
      } else {
        MoveKeeps(y, a, Wait1(s));
      }
    case Reap(_, _, _) => ReapKeeps(y, a);
    case Unlock(_, _, _) => UnlockKeeps(y, a);
  }

  lemma {:induction false} SchedulerKeeps(y: Sys, a: nat)
    requires Good(y) && a < |y.acts| && InTable(y, y.acts[a]) && !y.panicked && Scheduling(y.acts[a])
    ensures Kept(y, SchedulerStep(y, a), None, None) && !SchedulerStep(y, a).panicked
  {
    hide Owned, Apart, Pages, Kept, Good;
    match y.acts[a]
    case Look(s) => MoveKeeps(y, a, if y.slots[s].state == RUNNABLE then Take(s) else Idle);
    case Take(s) =>
      if y.slots[s].state == RUNNABLE {
        SeizeKeeps(y, a, s, RUNNABLE, NEG_RUNNING, Won(s));
      } else {
        MoveKeeps(y, a, Idle);
      }
    case Won(s) => WonKeeps(y, a, s);
    case Switched(s) => MoveKeeps(y, a, Back1(s));
    case Back1(s) => BackKeeps(y, a, s, NEG_RUNNABLE, RUNNABLE, Back2(s));
    case Back2(s) => BackKeeps(y, a, s, NEG_SLEEPING, SLEEPING, Back3(s));
    case Back3(s) => BackKeeps(y, a, s, NEG_ZOMBIE, ZOMBIE, Idle);
  }

  lemma {:induction false} NothingKeeps(y: Sys)
    requires Good(y)
    ensures Kept(y, y, None, None)
  {
  }

  lemma {:induction false} BackKeeps(y: Sys, a: nat, s: nat, from: State, to: State, act: Act)
    requires Good(y) && a < |y.acts| && s < |y.slots| && InTable(y, act) && Claim(act).None? && Claim(y.acts[a]).None?
    requires Alive(from) && Alive(to) && !Guarded(from) && !Guarded(to) && Dead(from) == Dead(to)
    ensures Kept(y, Move(Cas(y, s, from, to), a, act), None, None)
  {
    hide Pages, SlotOK, ActOK, FateOK, Published;
    CasKeeps(y, s, from, to);
    MoveKeeps(Cas(y, s, from, to), a, act);
  }

  /** Every step of every activation keeps the books, and no guarded compare-and-swap fails. */
  lemma {:induction false} StepKeeps(y: Sys, st: Step)
    requires Good(y) && Enabled(y, st)
    ensures Kept(y, Next(y, st), PublishedBy(y, st), ReturnedBy(y, st)) && !Next(y, st).panicked
  {
    hide Owned, Apart, Pages, Kept, Good, ForkStep, WaitStep, SchedulerStep, Touched;
    match st
    case BeginFork(a) => MoveKeeps(y, a, Scan(0));
    case BeginWait(a, s) => MoveKeeps(y, a, Wait1(s));
    case BeginScheduler(a, s) => MoveKeeps(y, a, Look(s));
    case Go(a) =>
      if Waiting(y.acts[a]) {
        WaitKeeps(y, a);
      } else if Scheduling(y.acts[a]) {
        SchedulerKeeps(y, a);
      } else {
        ForkKeeps(y, a);
      }
    case GoPage(a, page) => StackedKeeps(y, a, page);
    case GoFail(a) => FailedKeeps(y, a);
    case Do(s, t) => TouchKeeps(y, s, t);
    case Lend(page) => PageKeeps(y, st);
    case Return(page) => PageKeeps(y, st);
  }

  /** The rest of the kernel takes or returns a page. */
  lemma {:induction false} PageKeeps(y: Sys, st: Step)
    requires Good(y) && Enabled(y, st) && (st.Lend? || st.Return?)
    ensures Kept(y, Next(y, st), None, None) && !Next(y, st).panicked
  {
    var z := Next(y, st);
    forall s | 0 <= s < |z.slots|
      ensures SlotOK(z, s)
    {
      assert SlotOK(y, s);
    }
    forall a | 0 <= a < |z.acts|
      ensures ActOK(z, a)
    {
      assert ActOK(y, a);
    }
    forall k | 0 <= k < |z.fate|
      ensures FateOK(z, k)
    {
      assert FateOK(y, k);
    }
  }

  lemma {:induction false} TouchKeeps(y: Sys, s: nat, t: Touch)
    requires Good(y) && s < |y.slots| && !y.panicked
    ensures Kept(y, Touched(y, s, t), None, None) && !Touched(y, s, t).panicked
  {
    hide Owned, Apart, Pages, Kept, Good;
    match t
    case Exit =>
      if y.slots[s].state == RUNNING {
        ExitKeeps(y, s);
      } else {
        NothingKeeps(y);
      }
    case Yield => CasKeeps(y, s, RUNNING, NEG_RUNNABLE);
    case Sleep => CasKeeps(y, s, RUNNING, NEG_SLEEPING);
    case Wakeup => CasKeeps(y, s, SLEEPING, RUNNABLE);
  }
}
