/** Every interleaving of file-system operations over the log, with a crash possible between any
    two sector writes.  A step is one locked region of log.c or one sector write.  log_write tests
    its limits before it takes the lock; here the test and the update are one step.

    The history of begin/write/end events is bookkeeping, not code: it lets the invariant say which
    operations a disk contains. */
module LogProtocol {
  import opened Bytes
  import opened Sets
  import opened Sectors
  import opened RedoLog

  datatype Event = Begin(op: nat) | Put(op: nat, block: nat, data: Block) | End(op: nat)

  /** An operation between begin_op and end_op, with the distinct blocks it has logged. */
  datatype Op = Op(id: nat, spent: set<nat>)

  datatype Phase =
    | Running
    | Committing(base: Disk, ws: seq<SectorWrite>, k: nat)
    | Down
    | Recovering(base: Disk, ws: seq<SectorWrite>, k: nat)

  datatype Sys = Sys(disk: Disk, cache: map<nat, Block>, lh: seq<nat>, active: seq<Op>, phase: Phase,
                     history: seq<Event>, durable: nat)

  datatype Step =
    | BeginOp(op: nat)
    | LogWrite(i: nat, b: nat, data: Block)
    | EndOp(i: nat)
    | CommitSector
    | CommitReturn
    | Crash
    | Boot
    | RecoverSector
    | RecoverReturn

  ghost predicate WellFormed(g: Geometry, s: Sys) {
    GoodDisk(g, s.disk) && GoodHeader(g, s.lh) && Pinned(s.cache, s.lh)
  }

  ghost predicate Up(s: Sys) {
    s.phase.Running? || s.phase.Committing?
  }

  ghost function Used(h: seq<Event>): (r: set<nat>) {
    set i | 0 <= i < |h| :: h[i].op
  }

  /** log.c:218: the limits log_write tests before anything else. */
  ghost predicate LogFull(g: Geometry, s: Sys) {
    |s.lh| >= LOGSIZE || |s.lh| >= g.size - 1
  }

  ghost predicate Enabled(g: Geometry, s: Sys, l: Step) {
    match l
    case BeginOp(op) =>
      Up(s) && !s.phase.Committing? && op !in Used(s.history)
      && |s.lh| + (|s.active| + 1) * MAXOPBLOCKS <= LOGSIZE
    case LogWrite(i, b, data) =>
      Up(s) && i < |s.active| && g.Home(b) && !LogFull(g, s)
    case EndOp(i) => Up(s) && i < |s.active| && !s.phase.Committing?
    case CommitSector => s.phase.Committing? && s.phase.k < |s.phase.ws| && s.phase.ws[s.phase.k].block < |s.disk|
    case CommitReturn => s.phase.Committing? && s.phase.k == |s.phase.ws|
    case Crash => s.durable <= |s.history|
    case Boot => s.phase.Down?
    case RecoverSector => s.phase.Recovering? && s.phase.k < |s.phase.ws| && s.phase.ws[s.phase.k].block < |s.disk|
    case RecoverReturn => s.phase.Recovering? && s.phase.k == |s.phase.ws|
  }

  /** log.c:152: end_op finds a commit in progress. */
  ghost predicate EndPanics(s: Sys) {
    s.phase.Committing? && s.active != []
  }

  ghost function Without(ops: seq<Op>, i: nat): (r: seq<Op>)
    requires i < |ops|
  {
    ops[..i] + ops[i + 1..]
  }

  ghost function Do(g: Geometry, s: Sys, l: Step): (r: Sys)
    requires WellFormed(g, s) && Enabled(g, s, l)
  {
    match l
    case BeginOp(op) =>
      s.(active := s.active + [Op(op, {})], history := s.history + [Begin(op)])
    case LogWrite(i, b, data) =>
      var op := s.active[i];
      s.(cache := s.cache[b := data],
         lh := if b in s.lh then s.lh else s.lh + [b],
         active := s.active[i := Op(op.id, op.spent + {b})],
         history := s.history + [Put(op.id, b, data)])
    case EndOp(i) =>
      var rest := Without(s.active, i);
      s.(active := rest,
         history := s.history + [End(s.active[i].id)],
         phase := if rest == [] then Committing(s.disk, CommitWrites(g, s.disk, s.cache, s.lh), 0) else Running)
    case CommitSector =>
      var w := s.phase.ws[s.phase.k];
      s.(disk := s.disk[w.block := w.data],
         phase := Committing(s.phase.base, s.phase.ws, s.phase.k + 1),
         durable := if s.phase.k == |s.lh| then |s.history| else s.durable)
    case CommitReturn =>
      s.(phase := Running, lh := [], cache := map[], durable := |s.history|)
    case Crash =>
      Sys(s.disk, map[], [], [], Down, s.history[..s.durable], s.durable)
    case Boot =>
      s.(phase := Recovering(s.disk, RecoverWrites(g, s.disk), 0))
    case RecoverSector =>
      var w := s.phase.ws[s.phase.k];
      s.(disk := s.disk[w.block := w.data], phase := Recovering(s.phase.base, s.phase.ws, s.phase.k + 1))
    case RecoverReturn =>
      s.(phase := Running)
  }

  /** A freshly booted system on a clean image. */
  ghost predicate Initial(g: Geometry, init: Disk, s: Sys) {
    Clean(g, init) && s == Sys(init, map[], [], [], Running, [], 0)
  }

  ghost predicate IsRun(g: Geometry, init: Disk, run: seq<Sys>, steps: seq<Step>) {
    && |run| == |steps| + 1 && Initial(g, init, run[0])
    && forall i | 0 <= i < |steps| ::
         WellFormed(g, run[i]) && Enabled(g, run[i], steps[i]) && run[i + 1] == Do(g, run[i], steps[i])
  }

  // ---------- what the steps of a run amount to ----------

  /** An account of a run kept from its step labels alone: the operations under way, in the order of
      admission, their events so far, how many of these a crash would spare, and the sector writes
      of the commit under way. */
  datatype Ledger = Ledger(ids: seq<nat>, events: seq<Event>, durable: nat, sectors: nat)

  /** The blocks that some event writes. */
  ghost function Blocks(h: seq<Event>): (s: set<nat>) {
    set i | 0 <= i < |h| && h[i].Put? :: h[i].block
  }

  ghost predicate Sane(l: Ledger) {
    l.durable <= |l.events|
  }

  /** One more step.  The write that decides a commit is the header's, which follows one log block for
      every block written since the last commit.  A crash forgets what was not durable. */
  ghost function Enter(l: Ledger, st: Step): (r: Ledger)
    requires Sane(l)
    ensures Sane(r)
  {
    match st
    case BeginOp(op) => l.(ids := l.ids + [op], events := l.events + [Begin(op)])
    case LogWrite(i, b, data) =>
      if i < |l.ids| then l.(events := l.events + [Put(l.ids[i], b, data)]) else l
    case EndOp(i) =>
      if i < |l.ids| then l.(ids := l.ids[..i] + l.ids[i + 1..], events := l.events + [End(l.ids[i])]) else l
    case CommitSector =>
      l.(sectors := l.sectors + 1,
         durable := if l.sectors == |Blocks(l.events[l.durable..])| then |l.events| else l.durable)
    case CommitReturn => l.(sectors := 0, durable := |l.events|)
    case Crash => Ledger([], l.events[..l.durable], l.durable, 0)
    case Boot => l
    case RecoverSector => l
    case RecoverReturn => l
  }

  ghost function Account(steps: seq<Step>): (l: Ledger)
    ensures Sane(l)
  {
    if steps == [] then Ledger([], [], 0, 0) else Enter(Account(steps[..|steps| - 1]), steps[|steps| - 1])
  }

  /** The events that a crash after these steps spares. */
  ghost function Durable(steps: seq<Step>): (h: seq<Event>) {
    var l := Account(steps);
    l.events[..l.durable]
  }

  // ---------- what a history means ----------

  /** Block b after the writes of h: the specification's atomic disk. */
  ghost function Replay(init: Disk, h: seq<Event>, b: nat): (r: Block)
    requires b < |init|
  {
    if h == [] then init[b]
    else
      var e := h[|h| - 1];
      if e.Put? && e.block == b then e.data else Replay(init, h[..|h| - 1], b)
  }

  /** Operations begun and not ended in h. */
  ghost function Open(h: seq<Event>): (r: set<nat>) {
    if h == [] then {}
    else
      var e := h[|h| - 1];
      match e
      case Begin(op) => Open(h[..|h| - 1]) + {op}
      case Put(_, _, _) => Open(h[..|h| - 1])
      case End(op) => Open(h[..|h| - 1]) - {op}
  }

  /** Operations have fresh names, and write and end only while open. */
  ghost predicate Legal(h: seq<Event>) {
    forall j | 0 <= j < |h| :: LegalAt(h, j)
  }

  ghost predicate LegalAt(h: seq<Event>, j: nat)
    requires j < |h|
  {
    if h[j].Begin? then h[j].op !in Used(h[..j]) else h[j].op in Open(h[..j])
  }

  lemma {:induction false} LegalSnoc(h: seq<Event>, e: Event)
    requires Legal(h)
    requires if e.Begin? then e.op !in Used(h) else e.op in Open(h)
    ensures Legal(h + [e])
  {
    var h' := h + [e];
    forall j | 0 <= j < |h'| ensures LegalAt(h', j) {
      if j < |h| {
        assert h'[..j] == h[..j];
        assert LegalAt(h, j);
      } else {
        assert h'[..j] == h;
      }
    }
  }

  lemma {:induction false} LegalPrefix(h: seq<Event>, k: nat)
    requires Legal(h) && k <= |h|
    ensures Legal(h[..k])
  {
    forall j | 0 <= j < k ensures LegalAt(h[..k], j) {
      assert h[..k][..j] == h[..j];
      assert LegalAt(h, j);
    }
  }

  /** An operation that ended before k never becomes open again. */
  lemma {:induction false} ClosedStays(h: seq<Event>, k: nat, j: nat, op: nat)
    requires Legal(h) && k <= j <= |h|
    requires op in Used(h[..k]) && op !in Open(h[..k])
    ensures op !in Open(h[..j])
  {
    if k < j {
      ClosedStays(h, k, j - 1, op);
      assert h[..j][..j - 1] == h[..j - 1];
      assert LegalAt(h, j - 1);
      var i :| 0 <= i < k && h[..k][i].op == op;
      assert h[..j - 1][i].op == op;
    }
  }

  /** Entirely in or entirely out: no operation has events on both sides of a quiescent point. */
  lemma {:induction false} QuiescentSplits(h: seq<Event>, k: nat, i: nat, j: nat)
    requires Legal(h) && i < k <= j < |h| && Open(h[..k]) == {}
    ensures h[i].op != h[j].op
  {
    assert h[..k][i].op == h[..j][i].op == h[i].op;
    ClosedStays(h, k, j, h[i].op);
    assert LegalAt(h, j);
  }

  // ---------- the invariant ----------

  /** The disk means the durable prefix of the history, in every phase. */
  ghost predicate DiskInv(g: Geometry, init: Disk, s: Sys) {
    && WellFormed(g, s) && |init| == g.total && s.durable <= |s.history|
    && Means(g, init, s.disk, s.history[..s.durable])
    && match s.phase
       case Running => Clean(g, s.disk) && Shows(g, init, s.disk, s.cache, s.history)
       case Committing(base, ws, k) =>
         && Clean(g, base) && Shows(g, init, base, s.cache, s.history)
         && ws == CommitWrites(g, base, s.cache, s.lh)
         && k <= |ws| && s.disk == Apply(base, ws[..k])
         && (k > |s.lh| ==> s.durable == |s.history|)
         && (k <= |s.lh| ==> Means(g, init, base, s.history[..s.durable]))
       case Down => s.cache == map[] && s.lh == [] && s.durable == |s.history|
       case Recovering(base, ws, k) =>
         && s.cache == map[] && s.lh == [] && s.durable == |s.history|
         && GoodDisk(g, base) && ws == RecoverWrites(g, base)
         && k <= |ws| && s.disk == Apply(base, ws[..k])
  }

  /** A recovery of d would leave the blocks of history h. */
  ghost predicate Means(g: Geometry, init: Disk, d: Disk, h: seq<Event>) {
    && GoodDisk(g, d) && |init| == g.total
    && forall b | g.Home(b) :: Committed(g, d, b) == Replay(init, h, b)
  }

  /** Running operations see the blocks of history h. */
  ghost predicate Shows(g: Geometry, init: Disk, d: Disk, cache: map<nat, Block>, h: seq<Event>) {
    && |d| == |init| == g.total
    && forall b | g.Home(b) :: View(d, cache, b) == Replay(init, h, b)
  }

  lemma {:induction false} CleanMeans(g: Geometry, init: Disk, d: Disk, h: seq<Event>)
    requires Clean(g, d) && |init| == g.total
    requires forall b | g.Home(b) :: d[b] == Replay(init, h, b)
    ensures Means(g, init, d, h) && Shows(g, init, d, map[], h)
  {
    hide Word, Count, Replay;
  }

  lemma {:induction false} ShowsPut(g: Geometry, init: Disk, d: Disk, cache: map<nat, Block>, h: seq<Event>,
                                    e: Event)
    requires Shows(g, init, d, cache, h) && (e.Put? ==> e.block < g.total)
    ensures Shows(g, init, d, if e.Put? then cache[e.block := e.data] else cache, h + [e])
  {
    var cache' := if e.Put? then cache[e.block := e.data] else cache;
    assert (h + [e])[..|h|] == h;
    forall b | g.Home(b) ensures View(d, cache', b) == Replay(init, h + [e], b) {
      assert View(d, cache, b) == Replay(init, h, b);
    }
  }

  lemma {:induction false} LogWriteKeepsHeader(g: Geometry, s: Sys, b: nat, data: Block)
    requires WellFormed(g, s) && g.Home(b) && !LogFull(g, s)
    ensures var lh := if b in s.lh then s.lh else s.lh + [b];
            GoodHeader(g, lh) && Pinned(s.cache[b := data], lh)
  {
  }

  lemma {:induction false} OpKeepsDisk(g: Geometry, init: Disk, s: Sys, l: Step)
    requires DiskInv(g, init, s) && Enabled(g, s, l) && s.phase.Running?
    requires l.BeginOp? || l.LogWrite? || l.EndOp?
    ensures DiskInv(g, init, Do(g, s, l))
  {
    var s' := Do(g, s, l);
    var e := s'.history[|s.history|];
    ShowsPut(g, init, s.disk, s.cache, s.history, e);
    assert s'.history[..s'.durable] == s.history[..s.durable];
    if l.LogWrite? {
      LogWriteKeepsHeader(g, s, l.b, l.data);
    }
    if l.EndOp? {
      assert CommitWrites(g, s.disk, s.cache, s.lh)[..0] == [];
    }
  }

  /** Before the header write the disk still means what its base meant. */
  lemma {:induction false} MeansUndone(g: Geometry, init: Disk, base: Disk, cache: map<nat, Block>, lh: seq<nat>,
                                       k: nat, h: seq<Event>)
    requires Clean(g, base) && GoodHeader(g, lh) && Pinned(cache, lh) && k <= |lh|
    requires Means(g, init, base, h)
    ensures k <= |CommitWrites(g, base, cache, lh)|
    ensures Means(g, init, Apply(base, CommitWrites(g, base, cache, lh)[..k]), h)
  {
    hide Word, Count, Header, Replay, CommitWrites, Apply, Redo, Committed;
    CommitUndone(g, base, cache, lh, k);
    forall b | g.Home(b) ensures Committed(g, base, b) == base[b] {
      CleanMeansItself(g, base, b);
    }
  }

  /** From the header write on it means what the operations of the batch saw. */
  lemma {:induction false} MeansDone(g: Geometry, init: Disk, base: Disk, cache: map<nat, Block>, lh: seq<nat>,
                                     k: nat, h: seq<Event>)
    requires Clean(g, base) && GoodHeader(g, lh) && Pinned(cache, lh)
    requires |lh| < k <= |CommitWrites(g, base, cache, lh)|
    requires Shows(g, init, base, cache, h)
    ensures Means(g, init, Apply(base, CommitWrites(g, base, cache, lh)[..k]), h)
  {
    hide Word, Count, Header, Replay, CommitWrites, Apply, Redo, Committed;
    CommitDone(g, base, cache, lh, k);
  }

  lemma {:induction false} CommitKeepsDisk(g: Geometry, init: Disk, s: Sys)
    requires DiskInv(g, init, s) && Enabled(g, s, CommitSector)
    ensures DiskInv(g, init, Do(g, s, CommitSector))
  {
    hide GoodDisk, Clean, Means, Shows, CommitWrites, Apply, GoodHeader, Pinned;
    var base, ws, k := s.phase.base, s.phase.ws, s.phase.k;
    ApplyStep(base, ws, k);
    assert s.history[..|s.history|] == s.history;
    if k < |s.lh| {
      MeansUndone(g, init, base, s.cache, s.lh, k + 1, s.history[..s.durable]);
    } else {
      MeansDone(g, init, base, s.cache, s.lh, k + 1, s.history);
    }
    MeansGood(g, init, Do(g, s, CommitSector).disk, Do(g, s, CommitSector).history[..Do(g, s, CommitSector).durable]);
  }

  lemma {:induction false} MeansGood(g: Geometry, init: Disk, d: Disk, h: seq<Event>)
    requires Means(g, init, d, h)
    ensures GoodDisk(g, d)
  {
  }

  lemma {:induction false} CommitReturnKeepsDisk(g: Geometry, init: Disk, s: Sys)
    requires DiskInv(g, init, s) && Enabled(g, s, CommitReturn)
    ensures DiskInv(g, init, Do(g, s, CommitReturn))
  {
    hide Word, Count, Header, Replay, CommitWrites;
    var base, ws := s.phase.base, s.phase.ws;
    assert ws[..|ws|] == ws;
    assert s.history[..|s.history|] == s.history;
    CommitComplete(g, base, s.cache, s.lh);
    CleanMeans(g, init, s.disk, s.history);
  }

  lemma {:induction false} RebootKeepsDisk(g: Geometry, init: Disk, s: Sys, l: Step)
    requires DiskInv(g, init, s) && Enabled(g, s, l) && (l.Crash? || l.Boot?)
    ensures DiskInv(g, init, Do(g, s, l))
  {
    hide Word, Count, Header, Replay;
    assert s.history[..s.durable][..s.durable] == s.history[..s.durable];
    if l.Boot? {
      assert RecoverWrites(g, s.disk)[..0] == [];
    }
  }

  lemma {:induction false} RecoverKeepsDisk(g: Geometry, init: Disk, s: Sys, l: Step)
    requires DiskInv(g, init, s) && Enabled(g, s, l) && (l.RecoverSector? || l.RecoverReturn?)
    ensures DiskInv(g, init, Do(g, s, l))
  {
    hide Word, Count, Header, Replay, RecoverWrites;
    var base, ws, k := s.phase.base, s.phase.ws, s.phase.k;
    assert s.history[..|s.history|] == s.history;
    RecoverPrefix(g, base, k);
    if l.RecoverSector? {
      ApplyStep(base, ws, k);
      RecoverPrefix(g, base, k + 1);
    } else {
      assert ws[..|ws|] == ws;
      RecoverComplete(g, base);
      CleanMeans(g, init, s.disk, s.history);
    }
  }

  // ---------- operations and their boundaries ----------

  ghost function Ids(ops: seq<Op>): (r: set<nat>) {
    set i | 0 <= i < |ops| :: ops[i].id
  }

  /** The open operations are the active ones, the durable prefix is quiescent, and nothing is
      active while a commit or a recovery is under way. */
  ghost predicate OpsInv(s: Sys) {
    && Legal(s.history) && s.durable <= |s.history|
    && Open(s.history) == Ids(s.active)
    && (forall i, j | 0 <= i < j < |s.active| :: s.active[i].id != s.active[j].id)
    && Open(s.history[..s.durable]) == {}
    && (!s.phase.Running? ==> s.active == [])
  }

  lemma {:induction false} OpenIsUsed(h: seq<Event>)
    ensures Open(h) <= Used(h)
  {
    if h != [] {
      var p := h[..|h| - 1];
      OpenIsUsed(p);
      forall op | op in Used(p) ensures op in Used(h) {
        var i :| 0 <= i < |p| && p[i].op == op;
        assert h[i].op == op;
      }
      assert h[|h| - 1].op in Used(h);
    }
  }

  lemma {:induction false} IdsWithout(ops: seq<Op>, i: nat)
    requires i < |ops|
    requires forall j, k | 0 <= j < k < |ops| :: ops[j].id != ops[k].id
    ensures Ids(Without(ops, i)) == Ids(ops) - {ops[i].id}
  {
    var rest := Without(ops, i);
    forall id | id in Ids(ops) - {ops[i].id} ensures id in Ids(rest) {
      var j :| 0 <= j < |ops| && ops[j].id == id;
      assert rest[if j < i then j else j - 1].id == id;
    }
    forall id | id in Ids(rest) ensures id in Ids(ops) - {ops[i].id} {
      var j :| 0 <= j < |rest| && rest[j].id == id;
      assert ops[if j < i then j else j + 1].id == id;
    }
  }

  lemma {:induction false} OpKeepsOps(g: Geometry, s: Sys, l: Step)
    requires WellFormed(g, s) && OpsInv(s) && Enabled(g, s, l) && s.phase.Running?
    requires l.BeginOp? || l.LogWrite? || l.EndOp?
    ensures OpsInv(Do(g, s, l))
  {
    hide GoodDisk, GoodHeader, Pinned, CommitWrites, RecoverWrites, Ids, Legal, Open, Used;
    var s' := Do(g, s, l);
    var e := s'.history[|s.history|];
    assert s'.history == s.history + [e];
    assert s'.history[..s.durable] == s.history[..s.durable];
    OpenIsUsed(s.history);
    OpenSnoc(s.history, e);
    match l
    case BeginOp(op) =>
      LegalSnoc(s.history, e);
      IdsSnoc(s.active, Op(op, {}));
      NewId(s.active, op);
    case LogWrite(i, b, data) =>
      IdsHas(s.active, i);
      LegalSnoc(s.history, e);
      IdsUpdate(s.active, i, s'.active[i]);
    case EndOp(i) =>
      IdsHas(s.active, i);
      LegalSnoc(s.history, e);
      IdsWithout(s.active, i);
  }

  lemma {:induction false} OpenSnoc(h: seq<Event>, e: Event)
    ensures Open(h + [e]) == if e.Begin? then Open(h) + {e.op} else if e.Put? then Open(h) else Open(h) - {e.op}
  {
    assert (h + [e])[..|h|] == h;
  }

  lemma {:induction false} IdsHas(ops: seq<Op>, i: nat)
    requires i < |ops|
    ensures ops[i].id in Ids(ops)
  {
  }

  lemma {:induction false} NewId(ops: seq<Op>, id: nat)
    ensures id !in Ids(ops) ==> forall i | 0 <= i < |ops| :: ops[i].id != id
  {
  }

  lemma {:induction false} IdsSnoc(ops: seq<Op>, op: Op)
    ensures Ids(ops + [op]) == Ids(ops) + {op.id}
  {
    var l := ops + [op];
    assert l[|ops|].id == op.id;
    forall i | 0 <= i < |ops| ensures ops[i].id in Ids(l) {
      assert l[i] == ops[i];
    }
  }

  lemma {:induction false} IdsUpdate(ops: seq<Op>, i: nat, op: Op)
    requires i < |ops| && op.id == ops[i].id
    ensures Ids(ops[i := op]) == Ids(ops)
  {
    forall j | 0 <= j < |ops| ensures ops[i := op][j].id == ops[j].id {
    }
  }

  lemma {:induction false} SystemKeepsOps(g: Geometry, s: Sys, l: Step)
    requires WellFormed(g, s) && OpsInv(s) && Enabled(g, s, l)
    requires !(l.BeginOp? || l.LogWrite? || l.EndOp?)
    ensures OpsInv(Do(g, s, l))
  {
    hide GoodDisk, GoodHeader, Pinned, RecoverWrites;
    assert s.history[..|s.history|] == s.history;
    if l.Crash? {
      LegalPrefix(s.history, s.durable);
      assert s.history[..s.durable][..s.durable] == s.history[..s.durable];
    }
  }

  // ---------- log space ----------

  ghost function Unspent(op: Op): (n: int) {
    MAXOPBLOCKS - |op.spent|
  }

  /** Reservations not yet used up by the active operations. */
  ghost function Reserve(ops: seq<Op>): (n: int) {
    if ops == [] then 0 else Unspent(ops[0]) + Reserve(ops[1..])
  }

  lemma {:induction false} ReserveConcat(p: seq<Op>, q: seq<Op>)
    ensures Reserve(p + q) == Reserve(p) + Reserve(q)
  {
    if p == [] {
      assert p + q == q;
    } else {
      assert (p + q)[1..] == p[1..] + q;
      ReserveConcat(p[1..], q);
    }
  }

  lemma {:induction false} ReserveSplit(ops: seq<Op>, i: nat, op: Op)
    requires i < |ops|
    ensures Reserve(ops) == Reserve(Without(ops, i)) + Unspent(ops[i])
    ensures Reserve(ops[i := op]) == Reserve(Without(ops, i)) + Unspent(op)
  {
    ReserveConcat(ops[..i], ops[i + 1..]);
    ReserveConcat(ops[..i], [ops[i]] + ops[i + 1..]);
    ReserveConcat(ops[..i], [op] + ops[i + 1..]);
    assert ops == ops[..i] + ([ops[i]] + ops[i + 1..]);
    assert ops[i := op] == ops[..i] + ([op] + ops[i + 1..]);
  }

  ghost predicate WithinBudget(ops: seq<Op>) {
    forall i | 0 <= i < |ops| :: |ops[i].spent| <= MAXOPBLOCKS
  }

  lemma {:induction false} ReserveBounds(ops: seq<Op>)
    requires WithinBudget(ops)
    ensures 0 <= Reserve(ops) <= |ops| * MAXOPBLOCKS
  {
    if ops != [] {
      ReserveBounds(ops[1..]);
    }
  }

  /** Logged blocks plus unspent reservations fit the log; every operation's blocks are logged. */
  ghost predicate SpaceInv(s: Sys) {
    && WithinBudget(s.active)
    && |s.lh| + Reserve(s.active) <= LOGSIZE
    && forall i, b | 0 <= i < |s.active| && b in s.active[i].spent :: b in s.lh
  }

  lemma {:induction false} StepKeepsSpace(g: Geometry, s: Sys, l: Step)
    requires WellFormed(g, s) && OpsInv(s) && SpaceInv(s) && Enabled(g, s, l) && WithinBudget(Do(g, s, l).active)
    ensures SpaceInv(Do(g, s, l))
  {
    hide GoodDisk, GoodHeader, Pinned, CommitWrites, RecoverWrites, Legal, Open;
    match l
    case BeginOp(op) =>
      ReserveBounds(s.active);
      ReserveConcat(s.active, [Op(op, {})]);
    case LogWrite(i, b, data) => LogWriteKeepsSpace(g, s, i, b, data);
    case EndOp(i) =>
      ReserveSplit(s.active, i, s.active[i]);
    case CommitReturn =>
    case _ =>
  }

  lemma {:induction false} LogWriteKeepsSpace(g: Geometry, s: Sys, i: nat, b: nat, data: Block)
    requires WellFormed(g, s) && OpsInv(s) && SpaceInv(s) && Enabled(g, s, LogWrite(i, b, data))
    requires WithinBudget(Do(g, s, LogWrite(i, b, data)).active)
    ensures SpaceInv(Do(g, s, LogWrite(i, b, data)))
  {
    hide GoodDisk, GoodHeader, Pinned, CommitWrites, RecoverWrites, Legal, Open;
    var op := s.active[i];
    ReserveSplit(s.active, i, Do(g, s, LogWrite(i, b, data)).active[i]);
    if b in op.spent {
      assert op.spent + {b} == op.spent;
    }
  }

  // ---------- whole runs ----------

  ghost predicate Inv(g: Geometry, init: Disk, s: Sys) {
    DiskInv(g, init, s) && OpsInv(s)
  }

  lemma {:induction false} StepKeepsInv(g: Geometry, init: Disk, s: Sys, l: Step)
    requires Inv(g, init, s) && Enabled(g, s, l)
    ensures Inv(g, init, Do(g, s, l))
  {
    if l.BeginOp? || l.LogWrite? || l.EndOp? {
      OpKeepsDisk(g, init, s, l);
      OpKeepsOps(g, s, l);
    } else {
      SystemKeepsOps(g, s, l);
      match l
      case CommitSector => CommitKeepsDisk(g, init, s);
      case CommitReturn => CommitReturnKeepsDisk(g, init, s);
      case RecoverSector => RecoverKeepsDisk(g, init, s, l);
      case RecoverReturn => RecoverKeepsDisk(g, init, s, l);
      case Crash => RebootKeepsDisk(g, init, s, l);
      case Boot => RebootKeepsDisk(g, init, s, l);
    }
  }

  lemma {:induction false} RunKeepsInv(g: Geometry, init: Disk, run: seq<Sys>, steps: seq<Step>, i: nat)
    requires IsRun(g, init, run, steps) && i < |run|
    ensures Inv(g, init, run[i])
  {
    hide Word, Count;
    if i == 0 {
      CleanMeans(g, init, init, []);
      HistoryStart();
    } else {
      RunKeepsInv(g, init, run, steps, i - 1);
      hide Inv, Do, WellFormed;
      StepKeepsInv(g, init, run[i - 1], steps[i - 1]);
    }
  }

  lemma {:induction false} HistoryStart()
    ensures Open([]) == {} && Legal([]) && Ids([]) == {} && Reserve([]) == 0
  {
  }

  // ---------- the history is the account ----------

  ghost function IdsOf(ops: seq<Op>): (r: seq<nat>) {
    seq(|ops|, i requires 0 <= i < |ops| => ops[i].id)
  }

  ghost predicate SameBlocks(lh: seq<nat>, h: seq<Event>) {
    forall b :: b in lh <==> b in Blocks(h)
  }

  /** The state keeps the same account, and while nothing has been committed its header lists the
      blocks written since the last commit. */
  ghost predicate Accounts(s: Sys, l: Ledger) {
    && Sane(l) && s.history == l.events && s.durable == l.durable && IdsOf(s.active) == l.ids
    && (s.phase.Committing? ==> s.phase.k == l.sectors)
    && (!s.phase.Committing? ==> l.sectors == 0)
    && (s.phase.Running? || (s.phase.Committing? && s.phase.k <= |s.lh|) ==>
          SameBlocks(s.lh, l.events[l.durable..]))
    && (s.phase.Committing? && s.phase.k > |s.lh| ==> l.durable == |l.events|)
    && (s.phase.Down? || s.phase.Recovering? ==> l.durable == |l.events| && s.lh == [])
  }

  lemma {:induction false} BlocksSnoc(h: seq<Event>, e: Event)
    ensures Blocks(h + [e]) == Blocks(h) + if e.Put? then {e.block} else {}
  {
    var h' := h + [e];
    assert e.Put? ==> h'[|h|].block == e.block;
    forall b | b in Blocks(h)
      ensures b in Blocks(h')
    {
      var i :| 0 <= i < |h| && h[i].Put? && h[i].block == b;
      assert h'[i].block == b;
    }
  }

  /** A header without repetitions lists as many blocks as were written. */
  lemma {:induction false} ListedCount(g: Geometry, lh: seq<nat>, h: seq<Event>)
    requires GoodHeader(g, lh) && SameBlocks(lh, h)
    ensures |lh| == |Blocks(h)|
  {
    hide Blocks;
    SetInSeq(Blocks(h), lh);
    DistinctInSet(lh, Blocks(h));
  }

  /** The header keeps listing the blocks written since the last commit. */
  lemma {:induction false} ListedSnoc(lh: seq<nat>, h: seq<Event>, d: nat, e: Event)
    requires d <= |h| && SameBlocks(lh, h[d..])
    ensures SameBlocks(if e.Put? && e.block !in lh then lh + [e.block] else lh, (h + [e])[d..])
  {
    hide Blocks;
    assert (h + [e])[d..] == h[d..] + [e];
    BlocksSnoc(h[d..], e);
  }

  lemma {:induction false} IdsKept(ops: seq<Op>, i: nat, op: Op)
    requires i < |ops| && op.id == ops[i].id
    ensures IdsOf(ops[i := op]) == IdsOf(ops)
  {
  }

  lemma {:induction false} IdsLess(ops: seq<Op>, i: nat)
    requires i < |ops|
    ensures IdsOf(Without(ops, i)) == IdsOf(ops)[..i] + IdsOf(ops)[i + 1..]
  {
  }

  lemma {:induction false} IdsMore(ops: seq<Op>, op: Op)
    ensures IdsOf(ops + [op]) == IdsOf(ops) + [op.id]
  {
  }

  lemma {:induction false} OpAccounted(g: Geometry, s: Sys, l: Ledger, st: Step)
    requires WellFormed(g, s) && Accounts(s, l) && Enabled(g, s, st) && s.phase.Running?
    requires st.BeginOp? || st.LogWrite? || st.EndOp?
    ensures Accounts(Do(g, s, st), Enter(l, st))
  {
    hide GoodDisk, GoodHeader, Pinned, CommitWrites, Blocks, SameBlocks, IdsOf, Without;
    IdsSize(s.active);
    match st
    case BeginOp(op) =>
      ListedSnoc(s.lh, l.events, l.durable, Begin(op));
      IdsMore(s.active, Op(op, {}));
    case LogWrite(i, b, data) =>
      ListedSnoc(s.lh, l.events, l.durable, Put(s.active[i].id, b, data));
      IdsKept(s.active, i, Op(s.active[i].id, s.active[i].spent + {b}));
    case EndOp(i) =>
      ListedSnoc(s.lh, l.events, l.durable, End(s.active[i].id));
      IdsLess(s.active, i);
  }

  lemma {:induction false} IdsSize(ops: seq<Op>)
    ensures |IdsOf(ops)| == |ops| && forall i | 0 <= i < |ops| :: IdsOf(ops)[i] == ops[i].id
  {
  }

  lemma {:induction false} SystemAccounted(g: Geometry, s: Sys, l: Ledger, st: Step)
    requires WellFormed(g, s) && OpsInv(s) && Accounts(s, l) && Enabled(g, s, st)
    requires !st.BeginOp? && !st.LogWrite? && !st.EndOp?
    ensures Accounts(Do(g, s, st), Enter(l, st))
  {
    hide GoodDisk, Pinned, CommitWrites, RecoverWrites, Legal, Open, GoodHeader, Blocks;
    var s', l' := Do(g, s, st), Enter(l, st);
    NothingWritten(l.events);
    assert IdsOf([]) == [];
    if st.CommitSector? && s.phase.k <= |s.lh| {
      ListedCount(g, s.lh, l.events[l.durable..]);
    } else if st.Crash? {
      NothingWritten(l'.events);
    }
  }

  lemma {:induction false} NothingWritten(h: seq<Event>)
    ensures Blocks(h[|h|..]) == {} && SameBlocks([], h[|h|..])
  {
  }

  /** The history and the durable part of every state are what the steps so far amount to. */
  lemma {:induction false} HistoryIsAccount(g: Geometry, init: Disk, run: seq<Sys>, steps: seq<Step>, i: nat)
    requires IsRun(g, init, run, steps) && i < |run|
    ensures Accounts(run[i], Account(steps[..i]))
  {
    hide Do, Enabled, WellFormed, DiskInv, OpsInv, Accounts, Enter;
    if i == 0 {
      AccountStart(g, init, run[0]);
      assert steps[..0] == [];
    } else {
      HistoryIsAccount(g, init, run, steps, i - 1);
      RunKeepsInv(g, init, run, steps, i - 1);
      assert steps[..i][..i - 1] == steps[..i - 1];
      StepAccounted(g, init, run[i - 1], Account(steps[..i - 1]), steps[i - 1]);
    }
  }

  lemma {:induction false} AccountStart(g: Geometry, init: Disk, s: Sys)
    requires Initial(g, init, s)
    ensures Accounts(s, Account([]))
  {
    hide Clean;
    NothingWritten([]);
    assert IdsOf([]) == [];
  }

  lemma {:induction false} StepAccounted(g: Geometry, init: Disk, s: Sys, l: Ledger, st: Step)
    requires Inv(g, init, s) && WellFormed(g, s) && Accounts(s, l) && Enabled(g, s, st)
    ensures Accounts(Do(g, s, st), Enter(l, st))
  {
    hide Accounts, Do, Enter, WellFormed, DiskInv;
    if st.BeginOp? || st.LogWrite? || st.EndOp? {
      assert s.phase.Running? by {
        OpsRun(g, s, st);
      }
      OpAccounted(g, s, l, st);
    } else {
      SystemAccounted(g, s, l, st);
    }
  }

  lemma {:induction false} OpsRun(g: Geometry, s: Sys, st: Step)
    requires OpsInv(s) && Enabled(g, s, st) && (st.BeginOp? || st.LogWrite? || st.EndOp?)
    ensures s.phase.Running?
  {
  }

  /** Crash atomicity.  At any moment of any run, cut the power and recover: each home block holds
      what the events of the steps so far put there, up to the last commit; these leave no operation
      open, and every operation lies wholly inside them or wholly outside. */
  lemma {:induction false} CrashAtomicity(g: Geometry, init: Disk, run: seq<Sys>, steps: seq<Step>, i: nat)
    requires IsRun(g, init, run, steps) && i < |run|
    ensures var l := Account(steps[..i]);
            && GoodDisk(g, run[i].disk) && |init| == g.total
            && var recovered := Apply(run[i].disk, RecoverWrites(g, run[i].disk));
               && Clean(g, recovered)
               && (forall b | g.Home(b) :: recovered[b] == Replay(init, Durable(steps[..i]), b))
               && Open(Durable(steps[..i])) == {}
               && (forall p, q | 0 <= p < l.durable <= q < |l.events| :: l.events[p].op != l.events[q].op)
  {
    hide Account, Enter, Blocks;
    var s, l := run[i], Account(steps[..i]);
    RunKeepsInv(g, init, run, steps, i);
    HistoryIsAccount(g, init, run, steps, i);
    RecoverComplete(g, s.disk);
    forall p, q | 0 <= p < l.durable <= q < |l.events| ensures l.events[p].op != l.events[q].op {
      QuiescentSplits(s.history, s.durable, p, q);
    }
  }

  lemma {:induction false} DurablePrefix(steps: seq<Step>, i: nat, j: nat)
    requires i <= j <= |steps|
    ensures Durable(steps[..i]) <= Durable(steps[..j])
  {
    if i < j {
      DurablePrefix(steps, i, j - 1);
      assert steps[..j][..j - 1] == steps[..j - 1];
    }
  }

  /** What is durable stays durable: what a crash spares later extends what it spares now. */
  lemma {:induction false} DurableGrows(g: Geometry, init: Disk, run: seq<Sys>, steps: seq<Step>, i: nat, j: nat)
    requires IsRun(g, init, run, steps) && i <= j < |run|
    ensures run[i].durable <= |run[i].history| && run[j].durable <= |run[j].history|
    ensures run[i].history[..run[i].durable] <= run[j].history[..run[j].durable]
    ensures Durable(steps[..i]) <= Durable(steps[..j])
  {
    hide Do, Enabled, WellFormed, Account, Enter, Blocks;
    HistoryIsAccount(g, init, run, steps, i);
    HistoryIsAccount(g, init, run, steps, j);
    DurablePrefix(steps, i, j);
  }

  /** In every state of the run each operation has logged at most MAXOPBLOCKS distinct blocks. */
  ghost predicate Budgeted(run: seq<Sys>) {
    forall i | 0 <= i < |run| :: WithinBudget(run[i].active)
  }

  lemma {:induction false} RunKeepsSpace(g: Geometry, init: Disk, run: seq<Sys>, steps: seq<Step>, i: nat)
    requires IsRun(g, init, run, steps) && i < |run| && Budgeted(run[..i + 1])
    ensures SpaceInv(run[i])
  {
    hide Do, DiskInv, OpsInv, Enabled, WellFormed, SpaceInv, WithinBudget;
    assert run[i] == run[..i + 1][i];
    if i == 0 {
      InitialSpace(g, init, run[0]);
    } else {
      assert run[..i] == run[..i + 1][..i];
      RunKeepsSpace(g, init, run, steps, i - 1);
      RunKeepsInv(g, init, run, steps, i - 1);
      StepKeepsSpace(g, run[i - 1], steps[i - 1]);
    }
  }

  lemma {:induction false} InitialSpace(g: Geometry, init: Disk, s: Sys)
    requires Initial(g, init, s)
    ensures SpaceInv(s)
  {
    HistoryStart();
  }

  /** Group commit: while a commit runs nothing is outstanding, so the panic of end_op cannot
      happen; the header lists no block twice; and, as long as every operation has kept to its
      budget, logged blocks plus unspent reservations fit. */
  lemma {:induction false} GroupCommit(g: Geometry, init: Disk, run: seq<Sys>, steps: seq<Step>, i: nat)
    requires IsRun(g, init, run, steps) && i < |run|
    ensures var s := run[i];
            && !EndPanics(s)
            && (forall p, q | 0 <= p < q < |s.lh| :: s.lh[p] != s.lh[q])
            && (Budgeted(run[..i + 1]) ==> |s.lh| + Reserve(s.active) <= LOGSIZE)
  {
    RunKeepsInv(g, init, run, steps, i);
    if Budgeted(run[..i + 1]) {
      RunKeepsSpace(g, init, run, steps, i);
    }
  }

  // ---------- when log_write can panic ----------

  /** Reached by a run in which every operation keeps to its budget. */
  ghost predicate Kept(g: Geometry, init: Disk, s: Sys) {
    exists run, steps :: IsRun(g, init, run, steps) && Budgeted(run) && s == run[|run| - 1]
  }

  /** As many blocks as log_write lets into the log. */
  ghost function Cap(g: Geometry): (n: int) {
    if g.size - 1 < LOGSIZE then g.size - 1 else LOGSIZE
  }

  ghost function Homes(g: Geometry): (n: int) {
    g.total - g.size
  }

  /** An operation that has logged m distinct blocks can be running while the log is full: the other
      two fill what it leaves. */
  ghost predicate CanFill(g: Geometry, m: nat) {
    m <= Cap(g) <= 2 * MAXOPBLOCKS + m && Cap(g) <= Homes(g) && 1 <= Homes(g)
  }

  /** The p-th operation, which has logged m distinct blocks, is about to log block b, new or not. */
  ghost predicate Writes(g: Geometry, s: Sys, p: nat, b: nat, m: nat) {
    Up(s) && p < |s.active| && g.Home(b) && |s.active[p].spent| == m
  }

  lemma {:induction false} SetInSeq(a: set<nat>, l: seq<nat>)
    requires forall b | b in a :: b in l
    ensures |a| <= |l|
  {
    if l == [] {
      assert a == {};
    } else {
      SetInSeq(a - {l[0]}, l[1..]);
      assert a <= (a - {l[0]}) + {l[0]};
      Smaller(a, (a - {l[0]}) + {l[0]});
    }
  }

  /** The j-th home block. */
  ghost function Nth(g: Geometry, j: nat): (b: nat) {
    if j < g.start then j else j + g.size
  }

  ghost function FirstHomes(g: Geometry, n: nat): (s: set<nat>)
    ensures |s| <= n
  {
    if n == 0 then {} else FirstHomes(g, n - 1) + {Nth(g, n - 1)}
  }

  lemma {:induction false} FirstHomesAre(g: Geometry, n: nat, j: nat)
    requires 1 <= g.size
    ensures Nth(g, j) in FirstHomes(g, n) <==> j < n
    ensures |FirstHomes(g, n)| == n
  {
    if n > 0 {
      FirstHomesAre(g, n - 1, j);
      FirstHomesAre(g, n - 1, n - 1);
    }
  }

  lemma {:induction false} DistinctInSet(l: seq<nat>, a: set<nat>)
    requires (forall i | 0 <= i < |l| :: l[i] in a) && forall i, j | 0 <= i < j < |l| :: l[i] != l[j]
    ensures |l| <= |a|
  {
    if l != [] {
      var n := |l| - 1;
      DistinctInSet(l[..n], a - {l[n]});
    }
  }

  /** A log lists no more blocks than there are home blocks. */
  lemma {:induction false} ListedHomes(g: Geometry, lh: seq<nat>)
    requires g.Valid() && g.Loggable(lh)
    ensures |lh| <= Homes(g)
  {
    hide FirstHomes;
    forall i | 0 <= i < |lh|
      ensures lh[i] in FirstHomes(g, Homes(g))
    {
      var j := if lh[i] < g.start then lh[i] else lh[i] - g.size;
      assert Nth(g, j) == lh[i];
      FirstHomesAre(g, Homes(g), j);
    }
    DistinctInSet(lh, FirstHomes(g, Homes(g)));
  }

  /** A full log under an operation that has logged m blocks. */
  lemma {:induction false} FullMeans(g: Geometry, init: Disk, run: seq<Sys>, steps: seq<Step>, p: nat, b: nat, m: nat)
    requires IsRun(g, init, run, steps) && Budgeted(run) && Writes(g, run[|run| - 1], p, b, m)
    requires LogFull(g, run[|run| - 1])
    ensures CanFill(g, m)
  {
    var s := run[|run| - 1];
    assert run[..|run| - 1 + 1] == run;
    RunKeepsSpace(g, init, run, steps, |run| - 1);
    RunKeepsInv(g, init, run, steps, |run| - 1);
    hide DiskInv, OpsInv;
    ReserveSplit(s.active, p, s.active[p]);
    WithinWithout(s.active, p);
    ReserveBounds(Without(s.active, p));
    SetInSeq(s.active[p].spent, s.lh);
    assert g.Valid() && g.Loggable(s.lh) && |s.lh| <= LOGSIZE by {
      HeaderFits(g, init, s);
    }
    ListedHomes(g, s.lh);
  }

  lemma {:induction false} WithinWithout(ops: seq<Op>, i: nat)
    requires WithinBudget(ops) && i < |ops|
    ensures WithinBudget(Without(ops, i))
  {
  }

  lemma {:induction false} HeaderFits(g: Geometry, init: Disk, s: Sys)
    requires DiskInv(g, init, s)
    ensures g.Valid() && g.Loggable(s.lh) && |s.lh| <= LOGSIZE
  {
  }

  ghost function Clamp(n: int, lo: int, hi: int): (r: int) {
    if n < lo then lo else if n > hi then hi else n
  }

  /** Who logs the n-th block when the first operation is to log m. */
  ghost function Turn(n: nat, m: nat): (i: nat) {
    if n < m then 0 else if n < m + MAXOPBLOCKS then 1 else 2
  }

  /** Three operations have begun and logged the first n home blocks between them, the first of them
      m at most and the others ten. */
  ghost predicate Filled(g: Geometry, init: Disk, s: Sys, n: nat, m: nat) {
    && s.phase.Running? && s.disk == init && |s.active| == 3
    && s.lh == seq(n, j requires 0 <= j => Nth(g, j)) && Pinned(s.cache, s.lh) && Shares(g, s.active, n, m)
  }

  ghost predicate Shares(g: Geometry, ops: seq<Op>, n: nat, m: nat)
    requires |ops| == 3
  {
    && ops[0].spent == FirstHomes(g, Clamp(n, 0, m))
    && |ops[1].spent| <= Clamp(n - m, 0, MAXOPBLOCKS)
    && |ops[2].spent| <= Clamp(n - m - MAXOPBLOCKS, 0, MAXOPBLOCKS)
  }

  lemma {:induction false} FillRun(g: Geometry, init: Disk, n: nat, m: nat) returns (run: seq<Sys>, steps: seq<Step>)
    requires Clean(g, init) && m <= MAXOPBLOCKS && n <= m + 2 * MAXOPBLOCKS && n <= Cap(g) && n <= Homes(g)
    ensures IsRun(g, init, run, steps) && Budgeted(run) && Filled(g, init, run[|run| - 1], n, m)
  {
    if n == 0 {
      run, steps := ThreeOps(g, init, m);
    } else {
      hide IsRun, Do, Enabled, WellFormed, Filled, WithinBudget, Clean;
      run, steps := FillRun(g, init, n - 1, m);
      RunLength(g, init, run, steps);
      var s := run[|run| - 1];
      var l := LogWrite(Turn(n - 1, m), Nth(g, n - 1), ZERO);
      FillStep(g, init, s, n - 1, m);
      RunSnoc(g, init, run, steps, l);
      FilledKeeps(g, init, Do(g, s, l), n, m);
      run, steps := run + [Do(g, s, l)], steps + [l];
    }
  }

  lemma {:induction false} RunLength(g: Geometry, init: Disk, run: seq<Sys>, steps: seq<Step>)
    requires IsRun(g, init, run, steps)
    ensures |run| == |steps| + 1
  {
  }

  lemma {:induction false} FilledKeeps(g: Geometry, init: Disk, s: Sys, n: nat, m: nat)
    requires Filled(g, init, s, n, m) && m <= MAXOPBLOCKS
    ensures WithinBudget(s.active)
  {
  }

  lemma {:induction false} RunSnoc(g: Geometry, init: Disk, run: seq<Sys>, steps: seq<Step>, l: Step)
    requires IsRun(g, init, run, steps)
    requires WellFormed(g, run[|run| - 1]) && Enabled(g, run[|run| - 1], l)
    ensures IsRun(g, init, run + [Do(g, run[|run| - 1], l)], steps + [l])
  {
    hide Do, Enabled, WellFormed, Clean;
  }

  lemma {:induction false} FillStep(g: Geometry, init: Disk, s: Sys, n: nat, m: nat)
    requires Clean(g, init) && m <= MAXOPBLOCKS && n < m + 2 * MAXOPBLOCKS && n < Cap(g) && n < Homes(g)
    requires Filled(g, init, s, n, m)
    ensures var l := LogWrite(Turn(n, m), Nth(g, n), ZERO);
            WellFormed(g, s) && Enabled(g, s, l) && Filled(g, init, Do(g, s, l), n + 1, m)
  {
    hide Do, Filled, Nth, WellFormed, Enabled, Clean, Cap, Homes;
    FillEnabled(g, init, s, n, m);
    FillNext(g, init, s, n, m);
  }

  lemma {:induction false} FillEnabled(g: Geometry, init: Disk, s: Sys, n: nat, m: nat)
    requires Clean(g, init) && m <= MAXOPBLOCKS && n < m + 2 * MAXOPBLOCKS && n < Cap(g) && n < Homes(g)
    requires Filled(g, init, s, n, m)
    ensures WellFormed(g, s) && Enabled(g, s, LogWrite(Turn(n, m), Nth(g, n), ZERO)) && Nth(g, n) !in s.lh
  {
    hide Word, Count, Header, GoodHeader, FirstHomes, Pinned;
    FillHeader(g, s.lh, n);
  }

  lemma {:induction false} FillNext(g: Geometry, init: Disk, s: Sys, n: nat, m: nat)
    requires m <= MAXOPBLOCKS && n < m + 2 * MAXOPBLOCKS && Filled(g, init, s, n, m) && Nth(g, n) !in s.lh
    requires WellFormed(g, s) && Enabled(g, s, LogWrite(Turn(n, m), Nth(g, n), ZERO))
    ensures Filled(g, init, Do(g, s, LogWrite(Turn(n, m), Nth(g, n), ZERO)), n + 1, m)
  {
    hide GoodDisk, GoodHeader, CommitWrites, RecoverWrites, Nth, Shares;
    var i, b := Turn(n, m), Nth(g, n);
    ShareNext(g, s.active, n, m);
    var s' := Do(g, s, LogWrite(i, b, ZERO));
    assert s'.lh == seq(n + 1, j requires 0 <= j => Nth(g, j));
  }

  lemma {:induction false} ShareNext(g: Geometry, ops: seq<Op>, n: nat, m: nat)
    requires m <= MAXOPBLOCKS && n < m + 2 * MAXOPBLOCKS && |ops| == 3 && Shares(g, ops, n, m)
    ensures var i := Turn(n, m);
            Shares(g, ops[i := Op(ops[i].id, ops[i].spent + {Nth(g, n)})], n + 1, m)
  {
    hide Nth;
    var i, b := Turn(n, m), Nth(g, n);
    assert |ops[i].spent + {b}| <= |ops[i].spent| + 1;
  }

  lemma {:induction false} FillHeader(g: Geometry, lh: seq<nat>, n: nat)
    requires g.Valid() && n < Cap(g) && n < Homes(g) && lh == seq(n, j requires 0 <= j => Nth(g, j))
    ensures GoodHeader(g, lh) && Nth(g, n) !in lh && g.Home(Nth(g, n))
  {
  }

  lemma {:induction false} ThreeOps(g: Geometry, init: Disk, m: nat) returns (run: seq<Sys>, steps: seq<Step>)
    requires Clean(g, init)
    ensures IsRun(g, init, run, steps) && Budgeted(run) && Filled(g, init, run[|run| - 1], 0, m)
  {
    var s0 := Sys(init, map[], [], [], Running, [], 0);
    run, steps := [s0], [];
    hide Word, Count, Header;
    assert WellFormed(g, s0);
    RunSnoc(g, init, run, steps, BeginOp(0));
    var s1 := Do(g, s0, BeginOp(0));
    RunSnoc(g, init, [s0, s1], [BeginOp(0)], BeginOp(1));
    var s2 := Do(g, s1, BeginOp(1));
    RunSnoc(g, init, [s0, s1, s2], [BeginOp(0), BeginOp(1)], BeginOp(2));
    var s3 := Do(g, s2, BeginOp(2));
    run, steps := [s0, s1, s2, s3], [BeginOp(0), BeginOp(1), BeginOp(2)];
  }

  /** A run that fills the log under an operation with exactly the first m home blocks. */
  lemma {:induction false} Filling(g: Geometry, init: Disk, m: nat) returns (s: Sys)
    requires Clean(g, init) && m <= MAXOPBLOCKS && CanFill(g, m)
    ensures Kept(g, init, s) && Up(s) && |s.active| == 3 && LogFull(g, s)
    ensures s.active[0].spent == FirstHomes(g, m) && |s.active[0].spent| == m
  {
    var run, steps := FillRun(g, init, Cap(g), m);
    s := run[|run| - 1];
    FirstHomesAre(g, m, 0);
  }

  lemma {:induction false} NthHome(g: Geometry, j: nat)
    requires g.Valid() && j < Homes(g)
    ensures g.Home(Nth(g, j))
  {
  }

  /** Exactly when log_write is safe.  Logging a block, new or again, is safe for an operation that has
      logged m distinct blocks, in every run in which operations keep to their budgets, if and only
      if such an operation cannot see a full log: the test of the limits comes first. */
  lemma {:induction false} WritesSafeIff(g: Geometry, init: Disk, m: nat)
    requires Clean(g, init) && m <= MAXOPBLOCKS
    ensures (forall s, p: nat, b: nat | Kept(g, init, s) && Writes(g, s, p, b, m) :: !LogFull(g, s)) <==> !CanFill(g, m)
  {
    if CanFill(g, m) {
      var s := Filling(g, init, m);
      NthHome(g, 0);
      assert Writes(g, s, 0, Nth(g, 0), m);
    } else {
      forall s, p: nat, b: nat | Kept(g, init, s) && Writes(g, s, p, b, m)
        ensures !LogFull(g, s)
      {
        var run, steps :| IsRun(g, init, run, steps) && Budgeted(run) && s == run[|run| - 1];
        if LogFull(g, s) {
          FullMeans(g, init, run, steps, p, b, m);
        }
      }
    }
  }

  /** With a log of more than LOGSIZE blocks an operation is safe exactly until it has logged
      MAXOPBLOCKS distinct blocks; from then on even logging one of them again can panic. */
  lemma {:induction false} BigLogSafeIff(g: Geometry, init: Disk, m: nat)
    requires Clean(g, init) && m <= MAXOPBLOCKS && g.size > LOGSIZE
    ensures (forall s, p: nat, b: nat | Kept(g, init, s) && Writes(g, s, p, b, m) :: !LogFull(g, s))
            <==> m < MAXOPBLOCKS || Homes(g) < LOGSIZE
  {
    WritesSafeIff(g, init, m);
  }

  /** An operation about to log a block it has not logged yet, within its budget. */
  ghost predicate FreshWrite(g: Geometry, s: Sys, p: nat, b: nat) {
    && Up(s) && p < |s.active| && g.Home(b)
    && b !in s.active[p].spent && |s.active[p].spent| < MAXOPBLOCKS
  }

  /** begin_op reserves against LOGSIZE, but the log holds log.size - 1 blocks.  Logging a new block
      within the per-operation budget is safe in every run exactly when log.size > LOGSIZE or the
      device has not enough other blocks to fill the log; the image mkfs builds has
      log.size == LOGSIZE. */
  lemma {:induction false} FreshWritesSafeIff(g: Geometry, init: Disk)
    requires Clean(g, init)
    ensures (forall s, p: nat, b: nat | Kept(g, init, s) && FreshWrite(g, s, p, b) :: !LogFull(g, s))
            <==> g.size > LOGSIZE || Homes(g) < g.size - 1 || Homes(g) < 1
  {
    if g.size > LOGSIZE || Homes(g) < g.size - 1 || Homes(g) < 1 {
      forall s, p: nat, b: nat | Kept(g, init, s) && FreshWrite(g, s, p, b)
        ensures !LogFull(g, s)
      {
        WritesSafeIff(g, init, |s.active[p].spent|);
        assert Writes(g, s, p, b, |s.active[p].spent|);
      }
    } else {
      var m := Clamp(Cap(g) - 2 * MAXOPBLOCKS, 0, MAXOPBLOCKS);
      var s := Filling(g, init, m);
      FirstHomesAre(g, m, m);
      NthHome(g, m);
      assert FreshWrite(g, s, 0, Nth(g, m));
    }
  }

  /** A witness for the repeated write: an operation that has logged its ten blocks logs one of them
      again. */
  lemma {:induction false} RewriteCanPanic(g: Geometry, init: Disk) returns (s: Sys, b: nat)
    requires Clean(g, init) && g.size > LOGSIZE && Homes(g) >= LOGSIZE
    ensures Kept(g, init, s) && Writes(g, s, 0, b, MAXOPBLOCKS) && b in s.active[0].spent && LogFull(g, s)
  {
    s := Filling(g, init, MAXOPBLOCKS);
    b := Nth(g, 0);
    FirstHomesAre(g, MAXOPBLOCKS, 0);
    NthHome(g, 0);
  }
}
