/** Serialized reconciliations, step by step (operator/src/agent_operator/workflow_controller.py):
    at most one reconciliation is open at a time. It reads the body of the Workflow, lists the
    Tasks, attempts the creations one after the other and writes the status; Tasks start and end
    between any two of its steps, and it may crash between any two of them. */
module WorkflowSerial {
  import opened Wrappers
  import opened Sequences
  import opened WorkflowGraph
  import opened WorkflowReconcile
  import opened WorkflowRuns
  import opened WorkflowProgress

  // ---------- Exact status writes ----------

  /** The fields of a node fit together: a reference to an existing Task, a skip with its
      reason and message, or neither. */
  predicate NodeShape(tasks: Tasks, n: Name, node: NodeStatus) {
    if node.taskRef.Some? then n in tasks && node.reason.None? && node.message.None?
    else if node.phase == Skipped then node.reason.Some? && node.message.Some?
    else node.reason.None? && node.message.None?
  }

  ghost predicate Shaped(tasks: Tasks, status: Status) {
    forall n {:trigger NodeShape(tasks, n, status.tasks[n])} | n in status.tasks ::
      NodeShape(tasks, n, status.tasks[n])
  }

  lemma DesiredShape(w: Workflow, tasks: Tasks, listing: Tasks, body: Status, n: Name)
    requires w.Valid() && Sound(w, tasks) && Evolves(listing, tasks) && StatusSound(w, tasks, body)
    requires Shaped(listing, body) && n in Names(w.tasks)
    ensures n in w.Nodes(listing, body) && NodeShape(listing, n, w.Nodes(listing, body)[n])
    ensures n in body.tasks ==> Overwrites(w.Nodes(listing, body)[n], body.tasks[n])
  {
    w.NodeOf(listing, body, n);
    if n in body.tasks {
      assert NodeShape(listing, n, body.tasks[n]);
      if body.tasks[n].phase == Skipped {
        DoomedHasNoTask(w, tasks, n);
      }
    }
    if n in w.Skips(listing, body) {
      GraphOf(w.tasks).BlockedIsUnscheduled(w.Observed(listing, body), n);
    }
  }

  /** Fidelity: the merge patch produces exactly the desired status, also when Tasks have been
      created or have moved since the listing was taken. */
  lemma WritesAreExact(w: Workflow, tasks: Tasks, listing: Tasks, body: Status)
    requires w.Valid() && Sound(w, tasks) && Evolves(listing, tasks) && StatusSound(w, tasks, body)
    requires Shaped(listing, body)
    ensures Write(body, PatchTo(body, w.Desired(listing, body))) == w.Desired(listing, body)
    ensures Shaped(listing, w.Desired(listing, body))
  {
    var desired := w.Desired(listing, body);
    w.NodeKeys(listing, body);
    forall n | n in desired.tasks
      ensures NodeShape(listing, n, desired.tasks[n])
      ensures n in body.tasks ==> Overwrites(desired.tasks[n], body.tasks[n])
    {
      assert n in Elements(Names(w.tasks));
      DesiredShape(w, tasks, listing, body, n);
    }
    PatchIsExact(body, body, desired);
  }

  lemma EvolutionKeepsStatus(w: Workflow, before: Tasks, after: Tasks, status: Status)
    requires Evolves(before, after) && StatusSound(w, before, status) && Shaped(before, status)
    ensures StatusSound(w, after, status) && Shaped(after, status)
  {
    forall n | n in status.tasks && status.tasks[n].phase == Skipped ensures Doomed(w, after, n) {
      DoomedPersists(w, before, after, n);
    }
    forall n | n in status.tasks ensures NodeShape(after, n, status.tasks[n]) {
      assert NodeShape(before, n, status.tasks[n]);
    }
  }

  // ---------- The steps of a serialized run ----------

  /** Where the one reconciliation stands; `attempted` counts the creations it has tried. */
  datatype Reconciler = Idle | HasBody(body: Status) | Listed(body: Status, listing: Tasks, attempted: nat)

  datatype Serial = Serial(tasks: Tasks, status: Status, reconciler: Reconciler)

  datatype Step = ReadBody | ListTasks | AttemptCreate | WriteDesired | Crash | Move(name: Name, after: Task)

  const START := Serial(map[], Status(None, None, map[]), Idle)

  ghost predicate CanStep(w: Workflow, c: Serial, step: Step) {
    match step
    case ReadBody => c.reconciler.Idle?
    case ListTasks => c.reconciler.HasBody?
    case AttemptCreate =>
      c.reconciler.Listed? && c.reconciler.attempted < |w.ReadyList(c.reconciler.listing, c.reconciler.body)|
    case WriteDesired =>
      c.reconciler.Listed? && c.reconciler.attempted == |w.ReadyList(c.reconciler.listing, c.reconciler.body)|
    case Crash => true
    case Move(n, after) => n in c.tasks && Moves(c.tasks[n], after)
  }

  /** The Tasks after one attempt to create a ready task. */
  function Attempted(w: Workflow, tasks: Tasks, listing: Tasks, n: Name): Tasks {
    if w.HasResults(n, listing) && n !in tasks then tasks[n := w.NewTask(n, listing)] else tasks
  }

  ghost function After1(w: Workflow, c: Serial, step: Step): Serial
    requires CanStep(w, c, step)
  {
    match step
    case ReadBody => c.(reconciler := HasBody(c.status))
    case ListTasks => c.(reconciler := Listed(c.reconciler.body, c.tasks, 0))
    case AttemptCreate =>
      var r := c.reconciler;
      c.(tasks := Attempted(w, c.tasks, r.listing, w.ReadyList(r.listing, r.body)[r.attempted]),
         reconciler := r.(attempted := r.attempted + 1))
    case WriteDesired =>
      var r := c.reconciler;
      c.(status := Write(c.status, PatchTo(r.body, w.Desired(r.listing, r.body))), reconciler := Idle)
    case Crash => c.(reconciler := Idle)
    case Move(n, after) => c.(tasks := c.tasks[n := after])
  }

  ghost predicate IsSerialRun(w: Workflow, c: Serial, run: seq<Step>)
    decreases |run|
  {
    run == [] || (CanStep(w, c, run[0]) && IsSerialRun(w, After1(w, c, run[0]), run[1..]))
  }

  ghost function SerialAfter(w: Workflow, c: Serial, run: seq<Step>): Serial
    requires IsSerialRun(w, c, run)
    decreases |run|
  {
    if run == [] then c else SerialAfter(w, After1(w, c, run[0]), run[1..])
  }

  // ---------- The invariant of serialized runs ----------

  /** What an open reconciliation knows: the body is current, for nobody else writes the status, and
      the Tasks have evolved from the listing, where everything attempted was created if it could be. */
  ghost predicate ReconcilerSound(w: Workflow, c: Serial) {
    match c.reconciler
    case Idle => true
    case HasBody(body) => body == c.status
    case Listed(body, listing, attempted) =>
      && body == c.status && Evolves(listing, c.tasks)
      && Sound(w, listing) && StatusSound(w, listing, body) && Shaped(listing, body)
      && attempted <= |w.ReadyList(listing, body)|
      && forall i | 0 <= i < attempted :: w.HasResults(w.ReadyList(listing, body)[i], listing) ==>
           w.ReadyList(listing, body)[i] in c.tasks
  }

  ghost predicate SerialInvariant(w: Workflow, c: Serial) {
    && Sound(w, c.tasks) && StatusSound(w, c.tasks, c.status) && Shaped(c.tasks, c.status)
    && ReconcilerSound(w, c)
  }

  lemma AttemptIsSound(w: Workflow, tasks: Tasks, listing: Tasks, body: Status, n: Name)
    requires w.Valid() && Sound(w, tasks) && Evolves(listing, tasks) && n in w.ReadyList(listing, body)
    ensures Sound(w, Attempted(w, tasks, listing, n)) && Evolves(tasks, Attempted(w, tasks, listing, n))
  {
    if w.HasResults(n, listing) && n !in tasks {
      CreateKeepsSound(w, tasks, listing, body, n);
    }
  }

  lemma AttemptKeepsInvariant(w: Workflow, c: Serial)
    requires w.Valid() && SerialInvariant(w, c) && CanStep(w, c, AttemptCreate)
    ensures SerialInvariant(w, After1(w, c, AttemptCreate))
  {
    var r, next := c.reconciler, After1(w, c, AttemptCreate);
    var n := w.ReadyList(r.listing, r.body)[r.attempted];
    AttemptIsSound(w, c.tasks, r.listing, r.body, n);
    EvolutionKeepsStatus(w, c.tasks, next.tasks, c.status);
    EvolvesTransitive(r.listing, c.tasks, next.tasks);
  }

  lemma WriteKeepsInvariant(w: Workflow, c: Serial)
    requires w.Valid() && SerialInvariant(w, c) && CanStep(w, c, WriteDesired)
    ensures SerialInvariant(w, After1(w, c, WriteDesired))
    ensures After1(w, c, WriteDesired).status == w.Desired(c.reconciler.listing, c.reconciler.body)
  {
    var r := c.reconciler;
    var desired := w.Desired(r.listing, r.body);
    WritesAreExact(w, c.tasks, r.listing, r.body);
    DesiredIsSound(w, c.tasks, r.listing, r.body);
    forall n | n in desired.tasks ensures NodeShape(c.tasks, n, desired.tasks[n]) {
      assert NodeShape(r.listing, n, desired.tasks[n]);
    }
  }

  lemma MoveKeepsSerialInvariant(w: Workflow, c: Serial, n: Name, after: Task)
    requires w.Valid() && SerialInvariant(w, c) && CanStep(w, c, Move(n, after))
    ensures SerialInvariant(w, After1(w, c, Move(n, after)))
  {
    var moved := c.tasks[n := after];
    MoveKeepsSound(w, c.tasks, n, after);
    EvolutionKeepsStatus(w, c.tasks, moved, c.status);
    if c.reconciler.Listed? {
      EvolvesTransitive(c.reconciler.listing, c.tasks, moved);
    }
  }

  lemma StepKeepsSerialInvariant(w: Workflow, c: Serial, step: Step)
    requires w.Valid() && SerialInvariant(w, c) && CanStep(w, c, step)
    ensures SerialInvariant(w, After1(w, c, step))
  {
    match step
    case ReadBody =>
    case ListTasks =>
    case AttemptCreate => AttemptKeepsInvariant(w, c);
    case WriteDesired => WriteKeepsInvariant(w, c);
    case Crash =>
    case Move(n, after) => MoveKeepsSerialInvariant(w, c, n, after);
  }

  lemma {:induction false} SerialRunKeepsInvariant(w: Workflow, c: Serial, run: seq<Step>)
    requires w.Valid() && SerialInvariant(w, c) && IsSerialRun(w, c, run)
    ensures SerialInvariant(w, SerialAfter(w, c, run))
    decreases |run|
  {
    if run != [] {
      StepKeepsSerialInvariant(w, c, run[0]);
      SerialRunKeepsInvariant(w, After1(w, c, run[0]), run[1..]);
    }
  }

  /** Fidelity over whole runs: whatever Tasks did meanwhile and whatever crashed before, a status
      write of a serialized run leaves exactly the status that the reconciliation wants. */
  lemma SerialWritesAreExact(w: Workflow, run: seq<Step>)
    requires w.Valid() && IsSerialRun(w, START, run) && CanStep(w, SerialAfter(w, START, run), WriteDesired)
    ensures var c := SerialAfter(w, START, run);
            After1(w, c, WriteDesired).status == w.Desired(c.reconciler.listing, c.reconciler.body)
  {
    SerialRunKeepsInvariant(w, START, run);
    WriteKeepsInvariant(w, SerialAfter(w, START, run));
  }

  // ---------- Serialized runs among all runs ----------

  /** The interleaved run has seen what the open reconciliation read. */
  predicate Seen(s: State, r: Reconciler) {
    && (r.HasBody? || r.Listed? ==> r.body in s.seenStatuses)
    && (r.Listed? ==> r.listing in s.seenTasks)
  }

  ghost predicate Mirrors(s: State, c: Serial) {
    && s.tasks == c.tasks && s.status == c.status && Seen(s, c.reconciler)
    && s.tasks in s.seenTasks && s.status in s.seenStatuses
  }

  lemma StepIsARun(w: Workflow, done: seq<Action>, c: Serial, step: Step) returns (run: seq<Action>)
    requires w.Valid() && IsRun(w, Initial(), done) && Mirrors(After(w, Initial(), done), c)
    requires SerialInvariant(w, c) && CanStep(w, c, step)
    ensures IsRun(w, Initial(), run) && Mirrors(After(w, Initial(), run), After1(w, c, step))
  {
    run := done;
    match step
    case ReadBody =>
    case ListTasks =>
    case AttemptCreate =>
      var r := c.reconciler;
      var n := w.ReadyList(r.listing, r.body)[r.attempted];
      if w.HasResults(n, r.listing) {
        RunThen(w, Initial(), done, CreateTask(r.listing, r.body, n));
        run := done + [CreateTask(r.listing, r.body, n)];
      }
    case WriteDesired =>
      RunThen(w, Initial(), done, WriteStatus(c.reconciler.listing, c.reconciler.body));
      run := done + [WriteStatus(c.reconciler.listing, c.reconciler.body)];
    case Crash =>
    case Move(n, after) =>
      RunThen(w, Initial(), done, TaskMoves(n, after));
      run := done + [TaskMoves(n, after)];
  }

  /** Every serialized run is a run of the interleaved system, so whole-run safety holds of it. */
  lemma {:induction false} SerialIsARun(w: Workflow, done: seq<Action>, c: Serial, serial: seq<Step>)
    returns (run: seq<Action>)
    requires w.Valid() && IsRun(w, Initial(), done) && Mirrors(After(w, Initial(), done), c)
    requires SerialInvariant(w, c) && IsSerialRun(w, c, serial)
    ensures IsRun(w, Initial(), run) && Mirrors(After(w, Initial(), run), SerialAfter(w, c, serial))
    decreases |serial|
  {
    run := done;
    if serial != [] {
      run := StepIsARun(w, done, c, serial[0]);
      StepKeepsSerialInvariant(w, c, serial[0]);
      run := SerialIsARun(w, run, After1(w, c, serial[0]), serial[1..]);
    }
  }

  // ---------- Convergence ----------

  /** The status is final and agrees with the Tasks. */
  ghost predicate Finished(w: Workflow, tasks: Tasks, status: Status) {
    && IsFinal(status)
    && (forall n | n in Names(w.tasks) :: IsSettled(w, tasks, n))
    && (status.phase == Some(Succeeded) <==>
        forall n | n in Names(w.tasks) :: n in tasks && tasks[n].phase == Succeeded)
  }

  /** The Tasks had all ended when the open reconciliation listed them, and it created nothing. */
  ghost predicate CreatedNothing(c: Serial) {
    c.reconciler.Listed? && AllTerminal(c.reconciler.listing) && c.tasks.Keys == c.reconciler.listing.Keys
  }

  lemma EndedTasksStay(listing: Tasks, tasks: Tasks)
    requires AllTerminal(listing) && Evolves(listing, tasks) && tasks.Keys == listing.Keys
    ensures tasks == listing
  {
    forall n | n in tasks ensures tasks[n] == listing[n] {}
  }

  lemma LastWriteFinishes(w: Workflow, c: Serial)
    requires w.Valid() && SerialInvariant(w, c) && CanStep(w, c, WriteDesired) && CreatedNothing(c)
    ensures Finished(w, c.tasks, After1(w, c, WriteDesired).status)
  {
    var r := c.reconciler;
    EndedTasksStay(r.listing, c.tasks);
    WriteKeepsInvariant(w, c);
    ReportedPhase(w, r.listing, r.body);
    NoDeadlock(w, r.listing, r.body);
  }

  /** Convergence: in every serialized run, with whatever crashes and moves before, a reconciliation
      that finds all Tasks ended and creates nothing brings the Workflow to a final phase, Succeeded
      if and only if every task has succeeded. */
  lemma SerialConvergence(w: Workflow, run: seq<Step>)
    requires w.Valid() && IsSerialRun(w, START, run) && CanStep(w, SerialAfter(w, START, run), WriteDesired)
    requires CreatedNothing(SerialAfter(w, START, run))
    ensures var c := SerialAfter(w, START, run); Finished(w, c.tasks, After1(w, c, WriteDesired).status)
  {
    SerialRunKeepsInvariant(w, START, run);
    LastWriteFinishes(w, SerialAfter(w, START, run));
  }

  /** All Tasks have ended, the status is final, and an open reconciliation has seen just that. */
  ghost predicate Over(w: Workflow, c: Serial) {
    && SerialInvariant(w, c) && AllTerminal(c.tasks) && Finished(w, c.tasks, c.status)
    && (c.reconciler.Listed? ==> c.reconciler.listing == c.tasks)
  }

  lemma StepStaysOver(w: Workflow, c: Serial, step: Step)
    requires w.Valid() && Over(w, c) && CanStep(w, c, step)
    ensures Over(w, After1(w, c, step)) && After1(w, c, step).tasks == c.tasks
  {
    StepKeepsSerialInvariant(w, c, step);
    match step
    case ReadBody =>
    case ListTasks =>
    case AttemptCreate =>
      ReadyMeansOpen(w, c.tasks, c.reconciler.body,
                     w.ReadyList(c.tasks, c.reconciler.body)[c.reconciler.attempted]);
    case WriteDesired =>
      WriteKeepsInvariant(w, c);
      ReportedPhase(w, c.tasks, c.reconciler.body);
    case Crash =>
    case Move(n, after) =>
  }

  /** A ready task that is settled has a Task already. */
  lemma ReadyMeansOpen(w: Workflow, tasks: Tasks, body: Status, n: Name)
    requires w.Valid() && Sound(w, tasks) && n in w.ReadyList(tasks, body)
    requires forall m | m in Names(w.tasks) :: IsSettled(w, tasks, m)
    ensures n in tasks
  {
    ReadyDependencies(w, tasks, body, n);
    ReadyIsNotDoomed(w, tasks, body, n);
  }

  lemma ReadyIsNotDoomed(w: Workflow, tasks: Tasks, body: Status, n: Name)
    requires w.Valid() && Sound(w, tasks) && n in w.ReadyList(tasks, body)
    ensures !Doomed(w, tasks, n)
  {
    ReadyDependencies(w, tasks, body, n);
    if Doomed(w, tasks, n) {
      var p :| DoomPath(w, tasks, p) && p[0] == n;
      assert GraphOf(w.tasks).DependsOn(p[0], p[1]);
      if |p| > 2 {
        var rest := p[1..];
        forall i | 0 <= i < |rest| - 1 ensures GraphOf(w.tasks).DependsOn(rest[i], rest[i + 1]) {
          assert GraphOf(w.tasks).DependsOn(p[i + 1], p[i + 2]);
        }
        AncestorsSucceeded(w, tasks, rest);
      }
    }
  }

  /** A finished Workflow stays finished, however the serialized run goes on. */
  lemma {:induction false} FinishedStays(w: Workflow, c: Serial, run: seq<Step>)
    requires w.Valid() && Over(w, c) && IsSerialRun(w, c, run)
    ensures Over(w, SerialAfter(w, c, run)) && SerialAfter(w, c, run).tasks == c.tasks
    decreases |run|
  {
    if run != [] {
      StepStaysOver(w, c, run[0]);
      FinishedStays(w, After1(w, c, run[0]), run[1..]);
    }
  }
}
