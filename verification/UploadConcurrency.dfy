/**
 Several processes on one upload. An operation first tries the lock and is refused when another holds
 it; once it has the lock it reads the manifest, performs its calls one at a time, and releases. Any
 process may move between any two of these steps, and any process may die, which releases its lock.
 */
module UploadConcurrency {
  import opened Outcomes
  import opened UploadStore
  import opened ManifestRegister
  import opened UploadPlans
  import opened UnlockedReader
  import opened UploadInvariant
  import opened UploadRuns
  import opened UploadIntegrity
  import opened UploadIngest
  import opened UploadOrder

  type Pid = nat

  datatype Process =
    | Locked(op: Op)                                     // holds the lock, has not read the manifest yet
    | Acting(op: Op, done: seq<Act>, rest: seq<Act>)     // has read it and is performing its calls

  // The last three fields record the past: the operations that acquired the lock, in that order; those
  // of them that gave it up again, with the number of calls each of them made; and every call so far.
  datatype System = System(
    store: Store,
    holder: Option<Pid>,
    processes: map<Pid, Process>,
    acquired: seq<Op>,
    turns: seq<Event>,
    acts: seq<Act>)

  datatype Step =
    | TryLock(p: Pid, op: Op)
    | Read(p: Pid)
    | Call(p: Pid)
    | Release(p: Pid)
    | Die(p: Pid)

  function Start(s: Store): System {
    System(s, None, map[], [], [], [])
  }

  // try_lock_exclusive: refused without effect while the lock is held.
  function Next(y: System, id: string, hash: Hash, step: Step): System {
    match step
    case TryLock(p, op) =>
      if p in y.processes || y.holder.Some? then y
      else y.(holder := Some(p), processes := y.processes[p := Locked(op)], acquired := y.acquired + [op])
    case Read(p) =>
      if p in y.processes && y.processes[p].Locked? then
        var op := y.processes[p].op;
        y.(processes := y.processes[p := Acting(op, [], PlanOf(y.store, id, hash, op).acts)])
      else y
    case Call(p) =>
      if p in y.processes && y.processes[p].Acting? && y.processes[p].rest != [] then
        var a := y.processes[p];
        y.(store := Apply(y.store, a.rest[0]),
           processes := y.processes[p := Acting(a.op, a.done + [a.rest[0]], a.rest[1..])],
           acts := y.acts + [a.rest[0]])
      else y
    case Release(p) =>
      if p in y.processes && y.processes[p].Acting? && y.processes[p].rest == [] then Leave(y, p) else y
    case Die(p) =>
      if p in y.processes then Leave(y, p) else y
  }

  // The lock is given up by the process that held it; its turn is over.
  function Leave(y: System, p: Pid): System
    requires p in y.processes
  {
    y.(holder := if y.holder == Some(p) then None else y.holder,
       processes := y.processes - {p},
       turns := y.turns + [Turn(y.processes[p])])
  }

  function Turn(process: Process): Event {
    match process
    case Locked(op) => Event(op, 0)
    case Acting(op, done, _) => Event(op, |done|)
  }

  function RunSystem(y: System, id: string, hash: Hash, steps: seq<Step>): System
    decreases |steps|
  {
    if steps == [] then y else RunSystem(Next(y, id, hash, steps[0]), id, hash, steps[1..])
  }

  // The lock-acquisition order, with the turn that is under way last.
  function Turns(y: System): seq<Event> {
    if y.holder.Some? && y.holder.value in y.processes then y.turns + [Turn(y.processes[y.holder.value])]
    else y.turns
  }

  function OpsOf(events: seq<Event>): seq<Op> {
    seq(|events|, i requires 0 <= i < |events| => events[i].op)
  }

  // Only the holder is past the lock, and what it has left to do is what its plan says from the
  // store that the previous turns left.
  ghost predicate Serial(s0: Store, id: string, hash: Hash, y: System) {
    && (y.holder.Some? ==> y.holder.value in y.processes)
    && (forall p | p in y.processes :: y.holder == Some(p))
    && y.store == Run(s0, y.acts)
    && y.store == AfterAll(s0, id, hash, Turns(y))
    && y.acquired == OpsOf(Turns(y))
    && (y.holder.Some? ==>
         var process := y.processes[y.holder.value];
         var start := AfterAll(s0, id, hash, y.turns);
         match process
         case Locked(_) => y.store == start
         case Acting(op, done, rest) => PlanOf(start, id, hash, op).acts == done + rest && y.store == Run(start, done))
  }

  lemma AfterAllSnoc(s: Store, id: string, hash: Hash, events: seq<Event>, e: Event)
    ensures AfterAll(s, id, hash, events + [e]) == After(AfterAll(s, id, hash, events), id, hash, e)
  {
    AfterAllConcat(s, id, hash, events, [e]);
    var t := AfterAll(s, id, hash, events);
    assert AfterAll(After(t, id, hash, e), id, hash, []) == After(t, id, hash, e);
  }

  lemma SerialTryLock(s0: Store, id: string, hash: Hash, y: System, p: Pid, op: Op)
    requires Serial(s0, id, hash, y)
    ensures Serial(s0, id, hash, Next(y, id, hash, TryLock(p, op)))
  {
    if p !in y.processes && y.holder.None? {
      AfterAllSnoc(s0, id, hash, y.turns, Event(op, 0));
      assert Cut(PlanOf(AfterAll(s0, id, hash, y.turns), id, hash, op).acts, 0) == [];
    }
  }

  lemma SerialRead(s0: Store, id: string, hash: Hash, y: System, p: Pid)
    requires Serial(s0, id, hash, y)
    ensures Serial(s0, id, hash, Next(y, id, hash, Read(p)))
  {
    if p in y.processes && y.processes[p].Locked? {
      var acts := PlanOf(y.store, id, hash, y.processes[p].op).acts;
      assert acts == [] + acts;
    }
  }

  // One call of the turn that is under way, from the store that the turn began with.
  lemma TurnCall(start: Store, plan: seq<Act>, done: seq<Act>, rest: seq<Act>, store: Store)
    requires plan == done + rest && rest != [] && store == Run(start, done)
    ensures plan == (done + [rest[0]]) + rest[1..]
    ensures Apply(store, rest[0]) == Run(start, done + [rest[0]])
    ensures Cut(plan, |done + [rest[0]]|) == done + [rest[0]]
  {
    RunSnoc(start, done, rest[0]);
  }

  lemma SerialCall(s0: Store, id: string, hash: Hash, y: System, p: Pid)
    requires Serial(s0, id, hash, y)
    ensures Serial(s0, id, hash, Next(y, id, hash, Call(p)))
  {
    if p in y.processes && y.processes[p].Acting? && y.processes[p].rest != [] {
      hide Run, AfterAll, Apply, PlanOf, Cut;
      var start := AfterAll(s0, id, hash, y.turns);
      var a := y.processes[p];
      TurnCall(start, PlanOf(start, id, hash, a.op).acts, a.done, a.rest, y.store);
      RunSnoc(s0, y.acts, a.rest[0]);
      AfterAllSnoc(s0, id, hash, y.turns, Event(a.op, |a.done + [a.rest[0]]|));
    }
  }

  lemma SerialLeave(s0: Store, id: string, hash: Hash, y: System, p: Pid)
    requires Serial(s0, id, hash, y) && p in y.processes
    ensures Serial(s0, id, hash, Leave(y, p))
  {
    assert Turns(Leave(y, p)) == Turns(y);
  }

  lemma SerialStep(s0: Store, id: string, hash: Hash, y: System, step: Step)
    requires Serial(s0, id, hash, y)
    ensures Serial(s0, id, hash, Next(y, id, hash, step))
  {
    match step
    case TryLock(p, op) => SerialTryLock(s0, id, hash, y, p, op);
    case Read(p) => SerialRead(s0, id, hash, y, p);
    case Call(p) => SerialCall(s0, id, hash, y, p);
    case Release(p) => if p in y.processes { SerialLeave(s0, id, hash, y, p); }
    case Die(p) => if p in y.processes { SerialLeave(s0, id, hash, y, p); }
  }

  // Serialisability: however the steps of any number of processes interleave, and wherever some of
  // them die, only the holder of the lock touches the store, and the store is what the operations
  // leave when they run one after another in the order in which they acquired the lock, each making
  // the calls that it made.
  lemma {:induction false} EveryInterleavingIsSerial(s0: Store, id: string, hash: Hash, y: System, steps: seq<Step>)
    requires Serial(s0, id, hash, y)
    ensures Serial(s0, id, hash, RunSystem(y, id, hash, steps))
    decreases |steps|
  {
    if steps != [] {
      SerialStep(s0, id, hash, y, steps[0]);
      EveryInterleavingIsSerial(s0, id, hash, Next(y, id, hash, steps[0]), steps[1..]);
    }
  }

  lemma {:induction false} RunOpsSnoc(s: Store, id: string, hash: Hash, ops: seq<Op>, op: Op)
    ensures RunOps(s, id, hash, ops + [op]) ==
            var t := RunOps(s, id, hash, ops); Run(t, PlanOf(t, id, hash, op).acts)
    decreases |ops|
  {
    if ops == [] {
      assert ops + [op] == [op];
      assert RunOps(Run(s, PlanOf(s, id, hash, op).acts), id, hash, []) == Run(s, PlanOf(s, id, hash, op).acts);
    } else {
      assert (ops + [op])[1..] == ops[1..] + [op];
      RunOpsSnoc(Run(s, PlanOf(s, id, hash, ops[0]).acts), id, hash, ops[1..], op);
    }
  }

  ghost predicate WholeTurns(s0: Store, id: string, hash: Hash, y: System) {
    AfterAll(s0, id, hash, y.turns) == RunOps(s0, id, hash, OpsOf(y.turns))
  }

  lemma WholeStep(s0: Store, id: string, hash: Hash, y: System, step: Step)
    requires Serial(s0, id, hash, y) && WholeTurns(s0, id, hash, y) && !step.Die?
    ensures WholeTurns(s0, id, hash, Next(y, id, hash, step))
  {
    var p := step.p;
    if step.Release? && p in y.processes && y.processes[p].Acting? && y.processes[p].rest == [] {
      var a := y.processes[p];
      var start := AfterAll(s0, id, hash, y.turns);
      assert a.done + a.rest == a.done;
      AfterAllSnoc(s0, id, hash, y.turns, Turn(a));
      RunOpsSnoc(s0, id, hash, OpsOf(y.turns), a.op);
      assert OpsOf(y.turns + [Turn(a)]) == OpsOf(y.turns) + [a.op];
      assert Cut(PlanOf(start, id, hash, a.op).acts, |a.done|) == a.done;
    }
  }

  // When no process dies, the store left at the end is that of the whole operations, run one after
  // another in lock-acquisition order.
  lemma {:induction false} WithoutDeathsWholeOperations(
    s0: Store, id: string, hash: Hash, y: System, steps: seq<Step>)
    requires Serial(s0, id, hash, y) && WholeTurns(s0, id, hash, y)
    requires forall x | x in steps :: !x.Die?
    ensures WholeTurns(s0, id, hash, RunSystem(y, id, hash, steps))
    ensures var y' := RunSystem(y, id, hash, steps);
            y'.holder.None? ==> y'.store == RunOps(s0, id, hash, y'.acquired)
    decreases |steps|
  {
    if steps != [] {
      assert steps[0] in steps;
      WholeStep(s0, id, hash, y, steps[0]);
      SerialStep(s0, id, hash, y, steps[0]);
      WithoutDeathsWholeOperations(s0, id, hash, Next(y, id, hash, steps[0]), steps[1..]);
    }
  }

  // The operations that ever acquired the lock satisfy p.
  ghost predicate Asked(p: Op -> bool, steps: seq<Step>) {
    forall x | x in steps && x.TryLock? :: p(x.op)
  }

  ghost predicate AllTurns(p: Op -> bool, y: System) {
    && (forall e | e in y.turns :: p(e.op))
    && (forall q | q in y.processes :: p(y.processes[q].op))
  }

  lemma NextAsked(p: Op -> bool, y: System, id: string, hash: Hash, step: Step)
    requires AllTurns(p, y) && (step.TryLock? ==> p(step.op))
    ensures AllTurns(p, Next(y, id, hash, step))
  {
  }

  lemma {:induction false} TurnsWereAsked(p: Op -> bool, y: System, id: string, hash: Hash, steps: seq<Step>)
    requires Asked(p, steps) && AllTurns(p, y)
    ensures AllTurns(p, RunSystem(y, id, hash, steps))
    decreases |steps|
  {
    if steps != [] {
      assert steps[0] in steps;
      NextAsked(p, y, id, hash, steps[0]);
      TurnsWereAsked(p, Next(y, id, hash, steps[0]), id, hash, steps[1..]);
    }
  }

  // What every serial run keeps, every interleaving keeps: the integrity of the bytes, and with clocks
  // that let a receipt outlive the upload, the register invariant.
  lemma ConcurrentUploadsAreIntact(
    base: Manifest, hash: Hash, file: Bytes, s0: Store, steps: seq<Step>)
    requires Intends(base, file) && Prepared(base, s0)
    requires Asked((op: Op) => op.Append? ==> Slices(file, op.append), steps)
    ensures var y := RunSystem(Start(s0), base.uploadId, hash, steps);
            && Intact(base, hash, file, y.store)
            && (ClocksOk(base, Turns(y)) ==> Good(base, y.store))
  {
    var fair := (op: Op) => op.Append? ==> Slices(file, op.append);
    var y := RunSystem(Start(s0), base.uploadId, hash, steps);
    EveryInterleavingIsSerial(s0, base.uploadId, hash, Start(s0), steps);
    TurnsWereAsked(fair, Start(s0), base.uploadId, hash, steps);
    assert forall e | e in Turns(y) :: fair(e.op);
    UploadsAreIntact(base, hash, file, s0, Turns(y));
    if ClocksOk(base, Turns(y)) {
      PreparedIsGood(base, s0);
      RunsAreGood(base, hash, s0, Turns(y));
    }
  }

  // --------------------------------------------------------- the unlocked reader among them --

  ghost predicate OrderlySystem(s0: Store, y: System) {
    && Along(Orderly, s0, y.acts)
    && (forall p | p in y.processes && y.processes[p].Acting? :: Along(Orderly, y.store, y.processes[p].rest))
  }

  lemma OrderlySystemStep(s0: Store, id: string, hash: Hash, y: System, step: Step)
    requires Serial(s0, id, hash, y) && OrderlySystem(s0, y)
    ensures OrderlySystem(s0, Next(y, id, hash, step))
  {
    hide PlanOf, Run, AfterAll;
    match step
    case Read(p) =>
      if p in y.processes && y.processes[p].Locked? {
        OperationIsOrderly(y.store, id, hash, y.processes[p].op);
      }
    case Call(p) =>
      if p in y.processes && y.processes[p].Acting? && y.processes[p].rest != [] {
        var a := y.processes[p].rest[0];
        assert y.acts + [a] == y.acts + ([a] + []);
        AlongCons(Orderly, y.store, a, []);
        AlongConcat(Orderly, s0, y.acts, [a] + []);
      }
    case _ =>
  }

  lemma {:induction false} SystemStaysOrderly(s0: Store, id: string, hash: Hash, y: System, steps: seq<Step>)
    requires Serial(s0, id, hash, y) && OrderlySystem(s0, y)
    ensures OrderlySystem(s0, RunSystem(y, id, hash, steps))
    decreases |steps|
  {
    if steps != [] {
      hide Serial, OrderlySystem, Next;
      OrderlySystemStep(s0, id, hash, y, steps[0]);
      SerialStep(s0, id, hash, y, steps[0]);
      SystemStaysOrderly(s0, id, hash, Next(y, id, hash, steps[0]), steps[1..]);
    }
  }

  // The busy branch of a status request reads the three files without the lock, each at its own
  // moment. Whatever the other processes do in between, a manifest that it reports was the upload's
  // state at some instant of the request.
  lemma BusyStatusIsRegular(s0: Store, id: string, hash: Hash, steps: seq<Step>, i: nat, j: nat, k: nat)
    requires i <= j <= k <= |RunSystem(Start(s0), id, hash, steps).acts|
    requires UnlockedRead(s0, RunSystem(Start(s0), id, hash, steps).acts, i, j, k).Some?
    ensures var acts := RunSystem(Start(s0), id, hash, steps).acts;
            exists t: nat :: i <= t <= k && Current(At(s0, acts, t)) == UnlockedRead(s0, acts, i, j, k)
  {
    SystemStaysOrderly(s0, id, hash, Start(s0), steps);
    UnlockedReadIsRegular(s0, RunSystem(Start(s0), id, hash, steps).acts, i, j, k);
  }

  // ------------------------------------------------------------------- ingested once, among them --

  // Whatever the processes do: once one turn is a complete ingest that answered Ok, the library holds
  // at the end what it held then.
  lemma ConcurrentlyIngestedOnce(
    base: Manifest, hash: Hash, s0: Store, steps: seq<Step>, before: seq<Event>, e: Event, later: seq<Event>)
    requires PreparedBase(base) && Prepared(base, s0) && e.op.Ingest?
    requires Turns(RunSystem(Start(s0), base.uploadId, hash, steps)) == before + [e] + later
    requires var s := AfterAll(s0, base.uploadId, hash, before);
             && Complete(s, base.uploadId, hash, e) && PlanOf(s, base.uploadId, hash, e.op).reply.ingest.Ok?
             && (HasReceipt(s) ==> ClocksRun(base, before + [e] + later, e, later))
    ensures var s := AfterAll(s0, base.uploadId, hash, before);
            var s' := After(s, base.uploadId, hash, e);
            && RunSystem(Start(s0), base.uploadId, hash, steps).store.log == s'.log
            && RepliesAgree(s', base, hash, PlanOf(s, base.uploadId, hash, e.op).reply.ingest.value, later)
  {
    EveryInterleavingIsSerial(s0, base.uploadId, hash, Start(s0), steps);
    IngestedOnce(base, hash, s0, before, e, later);
  }
}
