/** The native dispatch protocol (operator/src/agent_operator/native_dispatch_reconciler.py): any
    number of worker processes, crashing and resuming at any point, over the command rows of the
    repository (console/backend/src/agent_console/execution_postgres.py) and Kubernetes Tasks. */
module NativeDispatch {
  import opened Wrappers

  type CommandId = nat
  type WorkerId = string
  type ProcessId = nat
  type Uid = nat

  /** A claim of a command; each claim of a command has its own generation, which stands for
      the fencing token as well. */
  datatype Claim = Claim(command: CommandId, generation: nat, worker: WorkerId)

  /** The name of a Task: the configured prefix and the hash of the command, taken to be injective. */
  datatype TaskName = TaskName(prefix: string, command: CommandId) | Foreign(name: string)

  datatype RowState = Queued | Claimed | EffectStarted | Closed

  datatype Row = Row(state: RowState, generation: nat, worker: WorkerId, task: Option<TaskName>, uid: Option<Uid>)

  datatype TaskStatus = NoStatus | Running | Succeeded(result: string) | Failed(reason: string) | OtherStatus

  /** A Task resource; `owner` are the labels and annotations that a worker puts on it. */
  datatype Task = Task(owner: Option<Claim>, uid: Option<Uid>, status: TaskStatus)

  /** How the invocation of the transport ended. */
  datatype Outcome = Output(text: string) | Error(reason: string) | Unclear

  datatype Observation = SucceededWith(result: string) | FailedWith(reason: string) | Unknown | RecoveryRequired

  /** Where a process stands in run_claim. */
  datatype Progress =
    | Idle
    | Holding(claim: Claim, name: TaskName)
    | Permitted(claim: Claim, name: TaskName)
    | MayOnlyObserve(claim: Claim, name: TaskName)
    | Created(claim: Claim, name: TaskName, uid: Uid)
    | Correlated(claim: Claim, name: TaskName, uid: Uid)
    | MarkedRunning(claim: Claim, name: TaskName, uid: Uid)
    | Invoked(claim: Claim, name: TaskName, uid: Uid, outcome: Outcome)
    | MustObserve(claim: Claim, name: TaskName)
    | Observed(claim: Claim, name: TaskName, seen: Option<Uid>, observation: Observation)

  datatype State = State(
    rows: map<CommandId, Row>,
    tasks: map<TaskName, Task>,
    processes: map<ProcessId, Progress>,
    invocations: seq<(CommandId, Outcome)>,            // calls of the transport
    completions: set<(CommandId, Observation)>,        // calls of the completion callback
    handled: set<TaskName>)                            // Tasks executed by the create_task handler

  datatype Action =
    | Enqueue(command: CommandId)
    | ClaimNext(p: ProcessId, worker: WorkerId, prefix: string, command: CommandId)
    | Resume(p: ProcessId, worker: WorkerId, prefix: string, command: CommandId)
    | PermitEffect(p: ProcessId, leaseValid: bool, authorized: bool)
    | CreateTask(p: ProcessId, uid: Option<Uid>)
    | Correlate(p: ProcessId)
    | MarkRunning(p: ProcessId)
    | Invoke(p: ProcessId, outcome: Outcome)
    | RecordOutcome(p: ProcessId)
    | Observe(p: ProcessId)
    | Finish(p: ProcessId, closes: bool)
    | Crash(p: ProcessId)
    | CreateForeignTask(name: TaskName, uid: Option<Uid>)
    | HandleTask(name: TaskName, status: TaskStatus)

  function ProgressOf(s: State, p: ProcessId): Progress {
    if p in s.processes then s.processes[p] else Idle
  }

  function Moved(s: State, p: ProcessId, progress: Progress): State {
    s.(processes := s.processes[p := progress])
  }

  /** The row is held by exactly this claim. */
  predicate Holds(s: State, claim: Claim) {
    && claim.command in s.rows
    && s.rows[claim.command].generation == claim.generation && s.rows[claim.command].worker == claim.worker
  }

  predicate Matches(s: State, claim: Claim, name: TaskName) {
    name in s.tasks && s.tasks[name].owner == Some(claim)
  }

  /** A failure without a reason is reported under a reason of its own. */
  function ReasonOf(reason: string): string {
    if reason == "" then "RUNTIME_FAILED" else reason
  }

  /** The terminal observation that a Task body supports. */
  function ObservationOf(s: State, name: TaskName): Observation {
    if name !in s.tasks then RecoveryRequired
    else match s.tasks[name].status
      case Succeeded(result) => SucceededWith(result)
      case Failed(reason) => FailedWith(ReasonOf(reason))
      case _ => Unknown
  }

  function UidOf(s: State, name: TaskName): Option<Uid> {
    if name in s.tasks then s.tasks[name].uid else None
  }

  /** record_uncertain: close the row, unless another claim holds it, it was closed before, or it
      is correlated with another Task than the one reported. */
  function CloseRow(s: State, claim: Claim, name: TaskName, uid: Option<Uid>): State {
    if && Holds(s, claim) && s.rows[claim.command].state == EffectStarted && s.rows[claim.command].task == Some(name)
       && (s.rows[claim.command].uid.None? || s.rows[claim.command].uid == uid)
    then s.(rows := s.rows[claim.command := s.rows[claim.command].(state := Closed)])
    else s
  }

  /** The completion callback; it closes the row unless it fails. */
  function Complete(s: State, claim: Claim, observation: Observation, closes: bool): State {
    var t := s.(completions := s.completions + {(claim.command, observation)});
    if closes && Holds(s, claim) && s.rows[claim.command].state == EffectStarted
    then t.(rows := s.rows[claim.command := s.rows[claim.command].(state := Closed)])
    else t
  }

  function ClaimStep(s: State, p: ProcessId, worker: WorkerId, prefix: string, c: CommandId): State {
    if ProgressOf(s, p).Idle? && c in s.rows && (s.rows[c].state == Queued || s.rows[c].state == Claimed)
    then
      var row := s.rows[c].(state := Claimed, generation := s.rows[c].generation + 1, worker := worker);
      Moved(s.(rows := s.rows[c := row]), p, Holding(Claim(c, row.generation, worker), TaskName(prefix, c)))
    else s
  }

  function ResumeStep(s: State, p: ProcessId, worker: WorkerId, prefix: string, c: CommandId): State {
    if ProgressOf(s, p).Idle? && c in s.rows && s.rows[c].state == EffectStarted && s.rows[c].worker == worker
    then Moved(s, p, Holding(Claim(c, s.rows[c].generation, worker), TaskName(prefix, c)))
    else s
  }

  /** The linearization point: APPENDED starts the effect, REPLAYED only allows observing it. */
  function PermitStep(s: State, p: ProcessId, leaseValid: bool, authorized: bool): State {
    var at := ProgressOf(s, p);
    if !at.Holding? then s
    else if !Holds(s, at.claim) then Moved(s, p, Idle)
    else
      var c, row := at.claim.command, s.rows[at.claim.command];
      if row.state == EffectStarted then
        Moved(s, p, if row.task == Some(at.name) then MayOnlyObserve(at.claim, at.name) else Idle)
      else if row.state == Claimed && leaseValid && authorized then
        Moved(s.(rows := s.rows[c := row.(state := EffectStarted, task := Some(at.name))]), p,
              Permitted(at.claim, at.name))
      else Moved(s, p, Idle)
  }

  /** Creation of the Task; when the name is taken, the existing Task must carry this claim. */
  function CreateStep(s: State, p: ProcessId, uid: Option<Uid>): State {
    var at := ProgressOf(s, p);
    if !at.Permitted? then s
    else
      var s' := if at.name in s.tasks then s
                else s.(tasks := s.tasks[at.name := Task(Some(at.claim), uid, NoStatus)]);
      if !Matches(s', at.claim, at.name) then Moved(s', p, Idle)
      else if s'.tasks[at.name].uid.None? then Moved(CloseRow(s', at.claim, at.name, None), p, Idle)
      else Moved(s', p, Created(at.claim, at.name, s'.tasks[at.name].uid.value))
  }

  function CorrelateStep(s: State, p: ProcessId): State {
    var at := ProgressOf(s, p);
    if !at.Created? then s
    else
      var c := at.claim.command;
      if !Holds(s, at.claim) || s.rows[c].state != EffectStarted || s.rows[c].task != Some(at.name)
         || (s.rows[c].uid.Some? && s.rows[c].uid != Some(at.uid))
      then Moved(s, p, Idle)
      else Moved(s.(rows := s.rows[c := s.rows[c].(uid := Some(at.uid))]), p, Correlated(at.claim, at.name, at.uid))
  }

  function SetStatus(s: State, name: TaskName, status: TaskStatus): State
    requires name in s.tasks
  {
    s.(tasks := s.tasks[name := s.tasks[name].(status := status)])
  }

  function MarkStep(s: State, p: ProcessId): State {
    var at := ProgressOf(s, p);
    if !at.Correlated? || at.name !in s.tasks then s
    else Moved(SetStatus(s, at.name, Running), p, MarkedRunning(at.claim, at.name, at.uid))
  }

  function InvokeStep(s: State, p: ProcessId, outcome: Outcome): State {
    var at := ProgressOf(s, p);
    if !at.MarkedRunning? then s
    else Moved(s.(invocations := s.invocations + [(at.claim.command, outcome)]), p,
               Invoked(at.claim, at.name, at.uid, outcome))
  }

  function RecordStep(s: State, p: ProcessId): State {
    var at := ProgressOf(s, p);
    if !at.Invoked? || at.name !in s.tasks then s
    else if at.outcome.Unclear? then Moved(CloseRow(s, at.claim, at.name, Some(at.uid)), p, Idle)
    else
      var status := if at.outcome.Output? then Succeeded(at.outcome.text) else Failed(at.outcome.reason);
      Moved(SetStatus(s, at.name, status), p, MustObserve(at.claim, at.name))
  }

  function ObserveStep(s: State, p: ProcessId): State {
    var at := ProgressOf(s, p);
    if !(at.MayOnlyObserve? || at.MustObserve?) then s
    else if at.name in s.tasks && !Matches(s, at.claim, at.name) then Moved(s, p, Idle)
    else Moved(s, p, Observed(at.claim, at.name, UidOf(s, at.name), ObservationOf(s, at.name)))
  }

  /** An unclear observation is recorded as uncertain; only a clear one is a completion. */
  function FinishStep(s: State, p: ProcessId, closes: bool): State {
    var at := ProgressOf(s, p);
    if !at.Observed? then s
    else if at.observation.Unknown? || at.observation.RecoveryRequired?
    then Moved(CloseRow(s, at.claim, at.name, at.seen), p, Idle)
    else Moved(Complete(s, at.claim, at.observation, closes), p, Idle)
  }

  /** The create_task handler returns at once from a Task that carries the worker's label. */
  function HandleStep(s: State, name: TaskName, status: TaskStatus): State {
    if name !in s.tasks || s.tasks[name].owner.Some? then s
    else SetStatus(s, name, status).(handled := s.handled + {name})
  }

  /** The effect of an action; an error that a process raises takes it back to Idle. */
  function Next(s: State, a: Action): State {
    match a
    case Enqueue(c) => if c in s.rows then s else s.(rows := s.rows[c := Row(Queued, 0, "", None, None)])
    case ClaimNext(p, worker, prefix, c) => ClaimStep(s, p, worker, prefix, c)
    case Resume(p, worker, prefix, c) => ResumeStep(s, p, worker, prefix, c)
    case PermitEffect(p, leaseValid, authorized) => PermitStep(s, p, leaseValid, authorized)
    case CreateTask(p, uid) => CreateStep(s, p, uid)
    case Correlate(p) => CorrelateStep(s, p)
    case MarkRunning(p) => MarkStep(s, p)
    case Invoke(p, outcome) => InvokeStep(s, p, outcome)
    case RecordOutcome(p) => RecordStep(s, p)
    case Observe(p) => ObserveStep(s, p)
    case Finish(p, closes) => FinishStep(s, p, closes)
    case Crash(p) => Moved(s, p, Idle)
    case CreateForeignTask(name, uid) =>
      if name in s.tasks then s else s.(tasks := s.tasks[name := Task(None, uid, NoStatus)])
    case HandleTask(name, status) => HandleStep(s, name, status)
  }

  function Run(s: State, run: seq<Action>): State
    decreases |run|
  {
    if run == [] then s else Run(Next(s, run[0]), run[1..])
  }

  const INITIAL := State(map[], map[], map[], [], {}, {})

  // ---------- The invariant ----------

  /** A process holds the licence for a command from the permit to the invocation. */
  predicate Licensed(at: Progress, c: CommandId) {
    (at.Permitted? || at.Created? || at.Correlated? || at.MarkedRunning?) && at.claim.command == c
  }

  predicate IsInvoked(s: State, c: CommandId) {
    exists i | 0 <= i < |s.invocations| :: s.invocations[i].0 == c
  }

  /** The licence for a command is given at most once and used up by the invocation. */
  predicate LicenceSound(s: State, p: ProcessId, c: CommandId) {
    Licensed(ProgressOf(s, p), c) ==>
      && c in s.rows && (s.rows[c].state == EffectStarted || s.rows[c].state == Closed)
      && !IsInvoked(s, c)
  }

  /** The invocation is of this command and ended the way the observation says. */
  predicate Shows(invocation: (CommandId, Outcome), c: CommandId, o: Observation) {
    && invocation.0 == c
    && match o
       case SucceededWith(result) => invocation.1 == Output(result)
       case FailedWith(reason) => invocation.1.Error? && ReasonOf(invocation.1.reason) == reason
       case _ => false
  }

  /** What a process and a Task say about an outcome happened. */
  predicate Reported(s: State, c: CommandId, o: Observation) {
    o.SucceededWith? || o.FailedWith? ==>
      exists i | 0 <= i < |s.invocations| :: Shows(s.invocations[i], c, o)
  }

  predicate ProcessSound(s: State, p: ProcessId) {
    var at := ProgressOf(s, p);
    && (at.Created? || at.Correlated? || at.MarkedRunning? || at.Invoked? || at.MustObserve? ==>
          Matches(s, at.claim, at.name))
    && (at.Invoked? ==> (at.claim.command, at.outcome) in s.invocations)
    && (at.Observed? ==> Reported(s, at.claim.command, at.observation))
  }

  predicate TaskSound(s: State, name: TaskName)
    requires name in s.tasks
  {
    s.tasks[name].owner.Some? ==>
      && name !in s.handled
      && Reported(s, s.tasks[name].owner.value.command, ObservationOf(s, name))
  }

  ghost predicate Invariant(s: State) {
    && (forall p, c {:trigger LicenceSound(s, p, c)} :: LicenceSound(s, p, c))
    && (forall p, q, c {:trigger Licensed(ProgressOf(s, p), c), Licensed(ProgressOf(s, q), c)} ::
          Licensed(ProgressOf(s, p), c) && Licensed(ProgressOf(s, q), c) ==> p == q)
    && (forall i, j | 0 <= i < j < |s.invocations| :: s.invocations[i].0 != s.invocations[j].0)
    && (forall c {:trigger IsInvoked(s, c)} ::
          IsInvoked(s, c) ==> c in s.rows && (s.rows[c].state == EffectStarted || s.rows[c].state == Closed))
    && (forall p {:trigger ProcessSound(s, p)} :: ProcessSound(s, p))
    && (forall name {:trigger TaskSound(s, name)} | name in s.tasks :: TaskSound(s, name))
    && (forall name | name in s.handled :: name in s.tasks)
    && (forall x | x in s.completions :: Reported(s, x.0, x.1) && (x.1.SucceededWith? || x.1.FailedWith?))
  }

  // ---------- Every step keeps the invariant ----------

  predicate Started(row: Row) {
    row.state == EffectStarted || row.state == Closed
  }

  /** Rows may change as long as a started effect stays started. */
  lemma RowsKeep(s: State, rows: map<CommandId, Row>)
    requires Invariant(s) && forall c | c in s.rows && Started(s.rows[c]) :: c in rows && Started(rows[c])
    ensures Invariant(s.(rows := rows))
  {
    var s' := s.(rows := rows);
    forall p, c ensures LicenceSound(s', p, c) {
      assert LicenceSound(s, p, c);
      assert IsInvoked(s', c) == IsInvoked(s, c);
    }
    forall c | IsInvoked(s', c) ensures c in rows && Started(rows[c]) { assert IsInvoked(s, c); }
    forall p ensures ProcessSound(s', p) { assert ProcessSound(s, p); }
    forall name | name in s'.tasks ensures TaskSound(s', name) { assert TaskSound(s, name); }
    assert forall p, c :: Licensed(ProgressOf(s', p), c) == Licensed(ProgressOf(s, p), c);
  }

  lemma CloseKeeps(s: State, claim: Claim, name: TaskName, uid: Option<Uid>)
    requires Invariant(s)
    ensures Invariant(CloseRow(s, claim, name, uid))
  {
    RowsKeep(s, CloseRow(s, claim, name, uid).rows);
  }

  /** A process may move to any place that needs no licence beyond the one it has. */
  lemma MoveKeeps(s: State, p: ProcessId, at: Progress)
    requires Invariant(s) && forall c | Licensed(at, c) :: Licensed(ProgressOf(s, p), c)
    requires ProcessSound(Moved(s, p, at), p)
    ensures Invariant(Moved(s, p, at))
  {
    var s' := Moved(s, p, at);
    assert forall q | q != p :: ProgressOf(s', q) == ProgressOf(s, q);
    forall q, c ensures LicenceSound(s', q, c) {
      assert LicenceSound(s, q, c);
      assert IsInvoked(s', c) == IsInvoked(s, c);
    }
    forall q, r, c | Licensed(ProgressOf(s', q), c) && Licensed(ProgressOf(s', r), c) ensures q == r {
      assert Licensed(ProgressOf(s, q), c) && Licensed(ProgressOf(s, r), c);
    }
    forall c | IsInvoked(s', c) ensures c in s'.rows && Started(s'.rows[c]) { assert IsInvoked(s, c); }
    forall q ensures ProcessSound(s', q) { assert ProcessSound(s, q); }
    forall name | name in s'.tasks ensures TaskSound(s', name) { assert TaskSound(s, name); }
  }

  /** Tasks may be added and change status, as long as owned Tasks report what happened. */
  lemma TasksKeep(s: State, tasks: map<TaskName, Task>)
    requires Invariant(s)
    requires forall name | name in s.tasks :: name in tasks && tasks[name].owner == s.tasks[name].owner
    requires forall name | name in tasks && tasks[name].owner.Some? :: TaskSound(s.(tasks := tasks), name)
    ensures Invariant(s.(tasks := tasks))
  {
    var s' := s.(tasks := tasks);
    assert forall p :: ProgressOf(s', p) == ProgressOf(s, p);
    forall p, c ensures LicenceSound(s', p, c) {
      assert LicenceSound(s, p, c);
      assert IsInvoked(s', c) == IsInvoked(s, c);
    }
    forall c | IsInvoked(s', c) ensures c in s'.rows && Started(s'.rows[c]) { assert IsInvoked(s, c); }
    forall p ensures ProcessSound(s', p) { assert ProcessSound(s, p); }
    assert forall p, c :: Licensed(ProgressOf(s', p), c) == Licensed(ProgressOf(s, p), c);
  }

  lemma StatusKeeps(s: State, name: TaskName, status: TaskStatus)
    requires Invariant(s) && name in s.tasks
    requires s.tasks[name].owner.Some? ==>
               Reported(s, s.tasks[name].owner.value.command, ObservationOf(SetStatus(s, name, status), name))
    ensures Invariant(SetStatus(s, name, status))
  {
    var s' := SetStatus(s, name, status);
    forall n | n in s'.tasks && s'.tasks[n].owner.Some? ensures TaskSound(s', n) {
      assert TaskSound(s, n);
    }
    TasksKeep(s, s'.tasks);
  }

  lemma NewTaskKeeps(s: State, name: TaskName, task: Task)
    requires Invariant(s) && name !in s.tasks && task.status == NoStatus
    ensures Invariant(s.(tasks := s.tasks[name := task]))
  {
    var tasks := s.tasks[name := task];
    forall n | n in tasks && tasks[n].owner.Some? ensures TaskSound(s.(tasks := tasks), n) {
      assert n in s.tasks ==> TaskSound(s, n);
    }
    TasksKeep(s, tasks);
  }

  /** The permit gives the licence for a command that nobody has and that was never invoked. */
  lemma PermitKeeps(s: State, p: ProcessId, c: CommandId, row: Row, at: Progress)
    requires Invariant(s) && c in s.rows && !Started(s.rows[c]) && row.state == EffectStarted
    requires at.Permitted? && at.claim.command == c && !Licensed(ProgressOf(s, p), c)
    ensures Invariant(Moved(s.(rows := s.rows[c := row]), p, at))
  {
    var t := s.(rows := s.rows[c := row]);
    RowsKeep(s, t.rows);
    assert !IsInvoked(s, c) && !IsInvoked(t, c);
    forall q ensures !Licensed(ProgressOf(t, q), c) { assert LicenceSound(s, q, c); }
    LicenceKeeps(t, p, at);
  }

  lemma LicenceKeeps(t: State, p: ProcessId, at: Progress)
    requires Invariant(t) && at.Permitted? && !IsInvoked(t, at.claim.command)
    requires at.claim.command in t.rows && Started(t.rows[at.claim.command])
    requires forall q :: !Licensed(ProgressOf(t, q), at.claim.command)
    ensures Invariant(Moved(t, p, at))
  {
    var s' := Moved(t, p, at);
    assert forall q | q != p :: ProgressOf(s', q) == ProgressOf(t, q);
    forall q, d ensures LicenceSound(s', q, d) {
      assert LicenceSound(t, q, d);
      assert IsInvoked(s', d) == IsInvoked(t, d);
    }
    forall q, r, d | Licensed(ProgressOf(s', q), d) && Licensed(ProgressOf(s', r), d) ensures q == r {
      if q != p && r != p {
        assert Licensed(ProgressOf(t, q), d) && Licensed(ProgressOf(t, r), d);
      }
    }
    forall d | IsInvoked(s', d) ensures d in s'.rows && Started(s'.rows[d]) { assert IsInvoked(t, d); }
    forall q ensures ProcessSound(s', q) { assert ProcessSound(t, q); }
    forall name | name in s'.tasks ensures TaskSound(s', name) { assert TaskSound(t, name); }
  }

  lemma ReportStays(s: State, s': State, c: CommandId, o: Observation)
    requires s.invocations <= s'.invocations && Reported(s, c, o)
    ensures Reported(s', c, o)
  {
    if o.SucceededWith? || o.FailedWith? {
      var i :| 0 <= i < |s.invocations| && Shows(s.invocations[i], c, o);
      assert Shows(s'.invocations[i], c, o);
    }
  }

  /** The invocation uses up the licence. */
  lemma InvokeKeeps(s: State, p: ProcessId, outcome: Outcome)
    requires Invariant(s) && ProgressOf(s, p).MarkedRunning?
    ensures Invariant(InvokeStep(s, p, outcome))
  {
    var at, s' := ProgressOf(s, p), InvokeStep(s, p, outcome);
    var c := at.claim.command;
    assert Licensed(at, c) && LicenceSound(s, p, c);
    assert forall q | q != p :: ProgressOf(s', q) == ProgressOf(s, q);
    forall d ensures IsInvoked(s', d) <==> d == c || IsInvoked(s, d) {
      if IsInvoked(s, d) {
        var i :| 0 <= i < |s.invocations| && s.invocations[i].0 == d;
        assert s'.invocations[i].0 == d;
      }
      assert s'.invocations[|s.invocations|].0 == c;
    }
    forall d, o | Reported(s, d, o) ensures Reported(s', d, o) { ReportStays(s, s', d, o); }
    forall q, d ensures LicenceSound(s', q, d) {
      assert LicenceSound(s, q, d);
      if Licensed(ProgressOf(s', q), d) {
        assert q != p && Licensed(ProgressOf(s, q), d);
        assert d == c ==> q == p;
      }
    }
    forall q, r, d | Licensed(ProgressOf(s', q), d) && Licensed(ProgressOf(s', r), d) ensures q == r {
      assert Licensed(ProgressOf(s, q), d) && Licensed(ProgressOf(s, r), d);
    }
    forall q ensures ProcessSound(s', q) { assert ProcessSound(s, q); }
    forall name | name in s'.tasks ensures TaskSound(s', name) { assert TaskSound(s, name); }
  }

  lemma CreateKeeps(s: State, p: ProcessId, uid: Option<Uid>)
    requires Invariant(s) && ProgressOf(s, p).Permitted?
    ensures Invariant(CreateStep(s, p, uid))
  {
    var at := ProgressOf(s, p);
    var s1 := if at.name in s.tasks then s else s.(tasks := s.tasks[at.name := Task(Some(at.claim), uid, NoStatus)]);
    if at.name !in s.tasks {
      NewTaskKeeps(s, at.name, Task(Some(at.claim), uid, NoStatus));
    }
    assert ProgressOf(s1, p) == at;
    if !Matches(s1, at.claim, at.name) {
      MoveKeeps(s1, p, Idle);
    } else if s1.tasks[at.name].uid.None? {
      CloseKeeps(s1, at.claim, at.name, None);
      MoveKeeps(CloseRow(s1, at.claim, at.name, None), p, Idle);
    } else {
      MoveKeeps(s1, p, Created(at.claim, at.name, s1.tasks[at.name].uid.value));
    }
  }

  lemma FinishKeeps(s: State, p: ProcessId, closes: bool)
    requires Invariant(s) && ProgressOf(s, p).Observed?
    ensures Invariant(FinishStep(s, p, closes))
  {
    var at := ProgressOf(s, p);
    assert ProcessSound(s, p);
    if at.observation.Unknown? || at.observation.RecoveryRequired? {
      CloseKeeps(s, at.claim, at.name, at.seen);
      MoveKeeps(CloseRow(s, at.claim, at.name, at.seen), p, Idle);
    } else {
      var done := Complete(s, at.claim, at.observation, closes);
      CompletionKeeps(s, at.claim.command, at.observation);
      RowsKeep(s.(completions := done.completions), done.rows);
      MoveKeeps(done, p, Idle);
    }
  }

  lemma CompletionKeeps(s: State, c: CommandId, o: Observation)
    requires Invariant(s) && Reported(s, c, o) && (o.SucceededWith? || o.FailedWith?)
    ensures Invariant(s.(completions := s.completions + {(c, o)}))
  {
    var s' := s.(completions := s.completions + {(c, o)});
    assert forall q :: ProgressOf(s', q) == ProgressOf(s, q);
    forall q, d ensures LicenceSound(s', q, d) {
      assert LicenceSound(s, q, d);
      assert IsInvoked(s', d) == IsInvoked(s, d);
    }
    forall d | IsInvoked(s', d) ensures d in s'.rows && Started(s'.rows[d]) { assert IsInvoked(s, d); }
    forall q ensures ProcessSound(s', q) { assert ProcessSound(s, q); }
    forall name | name in s'.tasks ensures TaskSound(s', name) { assert TaskSound(s, name); }
    assert forall q, d :: Licensed(ProgressOf(s', q), d) == Licensed(ProgressOf(s, q), d);
  }

  lemma HandleKeeps(s: State, name: TaskName, status: TaskStatus)
    requires Invariant(s)
    ensures Invariant(HandleStep(s, name, status))
  {
    if name in s.tasks && s.tasks[name].owner.None? {
      StatusKeeps(s, name, status);
      HandledKeeps(SetStatus(s, name, status), name);
    }
  }

  lemma HandledKeeps(s: State, name: TaskName)
    requires Invariant(s) && name in s.tasks && s.tasks[name].owner.None?
    ensures Invariant(s.(handled := s.handled + {name}))
  {
    var s' := s.(handled := s.handled + {name});
    assert forall q :: ProgressOf(s', q) == ProgressOf(s, q);
    forall q, d ensures LicenceSound(s', q, d) {
      assert LicenceSound(s, q, d);
      assert IsInvoked(s', d) == IsInvoked(s, d);
    }
    forall d | IsInvoked(s', d) ensures d in s'.rows && Started(s'.rows[d]) { assert IsInvoked(s, d); }
    forall q ensures ProcessSound(s', q) { assert ProcessSound(s, q); }
    forall n | n in s'.tasks ensures TaskSound(s', n) { assert TaskSound(s, n); }
    assert forall q, d :: Licensed(ProgressOf(s', q), d) == Licensed(ProgressOf(s, q), d);
  }

  lemma ClaimKeeps(s: State, p: ProcessId, worker: WorkerId, prefix: string, c: CommandId)
    requires Invariant(s)
    ensures Invariant(ClaimStep(s, p, worker, prefix, c))
  {
    var s' := ClaimStep(s, p, worker, prefix, c);
    if s' != s {
      RowsKeep(s, s'.rows);
      MoveKeeps(s.(rows := s'.rows), p, s'.processes[p]);
    }
  }

  lemma PermitStepKeeps(s: State, p: ProcessId, leaseValid: bool, authorized: bool)
    requires Invariant(s)
    ensures Invariant(PermitStep(s, p, leaseValid, authorized))
  {
    var at := ProgressOf(s, p);
    if at.Holding? {
      MoveKeeps(s, p, Idle);
      MoveKeeps(s, p, MayOnlyObserve(at.claim, at.name));
      if Holds(s, at.claim) && s.rows[at.claim.command].state == Claimed && leaseValid && authorized {
        var c, row := at.claim.command, s.rows[at.claim.command];
        PermitKeeps(s, p, c, row.(state := EffectStarted, task := Some(at.name)), Permitted(at.claim, at.name));
      }
    }
  }

  lemma CorrelateKeeps(s: State, p: ProcessId)
    requires Invariant(s)
    ensures Invariant(CorrelateStep(s, p))
  {
    var at, s' := ProgressOf(s, p), CorrelateStep(s, p);
    if at.Created? {
      assert ProcessSound(s, p);
      RowsKeep(s, s'.rows);
      var t := s.(rows := s'.rows);
      assert ProgressOf(t, p) == at;
      MoveKeeps(t, p, s'.processes[p]);
    }
  }

  lemma MarkKeeps(s: State, p: ProcessId)
    requires Invariant(s)
    ensures Invariant(MarkStep(s, p))
  {
    var at := ProgressOf(s, p);
    if at.Correlated? && at.name in s.tasks {
      assert ProcessSound(s, p);
      StatusKeeps(s, at.name, Running);
      var t := SetStatus(s, at.name, Running);
      assert ProgressOf(t, p) == at;
      MoveKeeps(t, p, MarkedRunning(at.claim, at.name, at.uid));
    }
  }

  lemma RecordKeeps(s: State, p: ProcessId)
    requires Invariant(s)
    ensures Invariant(RecordStep(s, p))
  {
    var at := ProgressOf(s, p);
    if at.Invoked? && at.name in s.tasks {
      assert ProcessSound(s, p);
      if at.outcome.Unclear? {
        CloseKeeps(s, at.claim, at.name, Some(at.uid));
        MoveKeeps(CloseRow(s, at.claim, at.name, Some(at.uid)), p, Idle);
      } else {
        var status := if at.outcome.Output? then Succeeded(at.outcome.text) else Failed(at.outcome.reason);
        var i :| 0 <= i < |s.invocations| && s.invocations[i] == (at.claim.command, at.outcome);
        assert Shows(s.invocations[i], at.claim.command, ObservationOf(SetStatus(s, at.name, status), at.name));
        StatusKeeps(s, at.name, status);
        MoveKeeps(SetStatus(s, at.name, status), p, MustObserve(at.claim, at.name));
      }
    }
  }

  lemma ObserveKeeps(s: State, p: ProcessId)
    requires Invariant(s)
    ensures Invariant(ObserveStep(s, p))
  {
    var at := ProgressOf(s, p);
    if at.MayOnlyObserve? || at.MustObserve? {
      if at.name in s.tasks && !Matches(s, at.claim, at.name) {
        MoveKeeps(s, p, Idle);
      } else {
        assert at.name in s.tasks ==> TaskSound(s, at.name);
        MoveKeeps(s, p, Observed(at.claim, at.name, UidOf(s, at.name), ObservationOf(s, at.name)));
      }
    }
  }

  lemma StepKeeps(s: State, a: Action)
    requires Invariant(s)
    ensures Invariant(Next(s, a))
  {
    match a
    case Enqueue(c) => RowsKeep(s, Next(s, a).rows);
    case ClaimNext(p, worker, prefix, c) => ClaimKeeps(s, p, worker, prefix, c);
    case Resume(p, worker, prefix, c) =>
      if ResumeStep(s, p, worker, prefix, c) != s {
        MoveKeeps(s, p, ResumeStep(s, p, worker, prefix, c).processes[p]);
      }
    case PermitEffect(p, leaseValid, authorized) => PermitStepKeeps(s, p, leaseValid, authorized);
    case CreateTask(p, uid) => if ProgressOf(s, p).Permitted? { CreateKeeps(s, p, uid); }
    case Correlate(p) => CorrelateKeeps(s, p);
    case MarkRunning(p) => MarkKeeps(s, p);
    case Invoke(p, outcome) => if ProgressOf(s, p).MarkedRunning? { InvokeKeeps(s, p, outcome); }
    case RecordOutcome(p) => RecordKeeps(s, p);
    case Observe(p) => ObserveKeeps(s, p);
    case Finish(p, closes) => if ProgressOf(s, p).Observed? { FinishKeeps(s, p, closes); }
    case Crash(p) => MoveKeeps(s, p, Idle);
    case CreateForeignTask(name, uid) => if name !in s.tasks { NewTaskKeeps(s, name, Task(None, uid, NoStatus)); }
    case HandleTask(name, status) => HandleKeeps(s, name, status);
  }

  // ---------- What holds of every run ----------

  lemma {:induction false} RunKeeps(s: State, run: seq<Action>)
    requires Invariant(s)
    ensures Invariant(Run(s, run))
    decreases |run|
  {
    if run != [] {
      StepKeeps(s, run[0]);
      RunKeeps(Next(s, run[0]), run[1..]);
    }
  }

  /** At most once: over every interleaving of processes, crashes and resumes the transport is
      invoked at most once per command; the completion is called only with what that one
      invocation did, so that all completions of a command agree; and the create_task handler
      never executes a Task that a worker owns. */
  lemma AtMostOnceDispatch(run: seq<Action>)
    ensures var s := Run(INITIAL, run);
            && (forall i, j | 0 <= i < j < |s.invocations| :: s.invocations[i].0 != s.invocations[j].0)
            && (forall x | x in s.completions ::
                  (x.1.SucceededWith? || x.1.FailedWith?) && Reported(s, x.0, x.1))
            && (forall x, y | x in s.completions && y in s.completions && x.0 == y.0 :: x.1 == y.1)
            && (forall name | name in s.tasks && s.tasks[name].owner.Some? :: name !in s.handled)
  {
    RunKeeps(INITIAL, run);
    var s := Run(INITIAL, run);
    forall x, y | x in s.completions && y in s.completions && x.0 == y.0 ensures x.1 == y.1 {
      ReportsAgree(s, x.0, x.1, y.1);
    }
    forall name | name in s.tasks && s.tasks[name].owner.Some? ensures name !in s.handled {
      assert TaskSound(s, name);
    }
  }

  lemma ReportsAgree(s: State, c: CommandId, o: Observation, o': Observation)
    requires forall i, j | 0 <= i < j < |s.invocations| :: s.invocations[i].0 != s.invocations[j].0
    requires Reported(s, c, o) && Reported(s, c, o')
    requires (o.SucceededWith? || o.FailedWith?) && (o'.SucceededWith? || o'.FailedWith?)
    ensures o == o'
  {
    var i :| 0 <= i < |s.invocations| && Shows(s.invocations[i], c, o);
    var j :| 0 <= j < |s.invocations| && Shows(s.invocations[j], c, o');
    assert i == j;
  }

  /** Where a process can be after the answer REPLAYED, until it takes a new claim. */
  predicate OnlyObserves(s: State, p: ProcessId) {
    var at := ProgressOf(s, p);
    at.MayOnlyObserve? || at.Observed? || at.Idle?
  }

  function WithoutInvokes(run: seq<Action>, p: ProcessId): seq<Action> {
    if run == [] then []
    else if run[0].Invoke? && run[0].p == p then WithoutInvokes(run[1..], p)
    else [run[0]] + WithoutInvokes(run[1..], p)
  }

  predicate NewClaim(a: Action, p: ProcessId) {
    (a.ClaimNext? || a.Resume?) && a.p == p
  }

  /** A REPLAYED permit only observes: however the run goes on, the process has no way to the
      transport before it takes a new claim. */
  lemma {:induction false} ReplayOnlyObserves(s: State, run: seq<Action>, p: ProcessId)
    requires OnlyObserves(s, p) && forall a | a in run :: !NewClaim(a, p)
    ensures OnlyObserves(Run(s, run), p) && Run(s, run) == Run(s, WithoutInvokes(run, p))
    decreases |run|
  {
    if run != [] {
      assert !NewClaim(run[0], p);
      ReplayStep(s, run[0], p);
      ReplayOnlyObserves(Next(s, run[0]), run[1..], p);
      if !(run[0].Invoke? && run[0].p == p) {
        assert WithoutInvokes(run, p)[0] == run[0] && WithoutInvokes(run, p)[1..] == WithoutInvokes(run[1..], p);
      }
    }
  }

  lemma ReplayStep(s: State, a: Action, p: ProcessId)
    requires OnlyObserves(s, p) && !NewClaim(a, p)
    ensures OnlyObserves(Next(s, a), p)
    ensures a.Invoke? && a.p == p ==> Next(s, a) == s
  {
  }

  // ---------- Fencing and closing ----------

  /** The process is past the permit. */
  predicate Active(at: Progress) {
    !at.Idle? && !at.Holding?
  }

  predicate HasCorrelated(at: Progress) {
    at.Correlated? || at.MarkedRunning? || at.Invoked?
  }

  /** A process past the permit still holds the claim of its command, for its own Task. */
  predicate FencedAt(s: State, p: ProcessId) {
    var at := ProgressOf(s, p);
    Active(at) ==>
      && Holds(s, at.claim) && Started(s.rows[at.claim.command]) && s.rows[at.claim.command].task == Some(at.name)
      && (HasCorrelated(at) ==> s.rows[at.claim.command].uid == Some(at.uid))
  }

  ghost predicate Fenced(s: State) {
    forall p {:trigger FencedAt(s, p)} :: FencedAt(s, p)
  }

  /** Nobody takes over a started effect or correlates it again, and a closed row stays closed. */
  predicate Steady(row: Row, row': Row) {
    Started(row) ==>
      && Started(row') && row'.generation == row.generation && row'.worker == row.worker && row'.task == row.task
      && (row.uid.Some? ==> row'.uid == row.uid)
      && (row.state == Closed ==> row'.state == Closed)
  }

  lemma StepIsSteady(s: State, a: Action, c: CommandId)
    requires c in s.rows
    ensures c in Next(s, a).rows && Steady(s.rows[c], Next(s, a).rows[c])
  {
  }

  lemma StepKeepsFence(s: State, a: Action)
    requires Fenced(s)
    ensures Fenced(Next(s, a))
  {
    var s' := Next(s, a);
    forall p ensures FencedAt(s', p) {
      assert FencedAt(s, p);
      if Active(ProgressOf(s', p)) {
        ClaimComesFrom(s, a, p);
        if Active(ProgressOf(s, p)) {
          StepIsSteady(s, a, ProgressOf(s, p).claim.command);
        }
      }
    }
  }

  /** A process past the permit was so before with the same claim and Task, unless it has just got
      the permit; and it has correlated the Task before, unless it has just done so. */
  lemma ClaimComesFrom(s: State, a: Action, p: ProcessId)
    requires Active(ProgressOf(Next(s, a), p))
    ensures var at, at', s' := ProgressOf(s, p), ProgressOf(Next(s, a), p), Next(s, a);
            && !at.Idle? && at.claim == at'.claim && at.name == at'.name
            && (!Active(at) ==> !HasCorrelated(at') && FencedAt(s', p))
            && (Active(at) && HasCorrelated(at') ==> (HasCorrelated(at) && at.uid == at'.uid) || FencedAt(s', p))
  {
  }

  lemma {:induction false} RunKeepsFence(s: State, run: seq<Action>)
    requires Fenced(s)
    ensures Fenced(Run(s, run))
    decreases |run|
  {
    if run != [] {
      StepKeepsFence(s, run[0]);
      RunKeepsFence(Next(s, run[0]), run[1..]);
    }
  }

  lemma {:induction false} ClosedStays(s: State, run: seq<Action>, c: CommandId)
    requires c in s.rows && s.rows[c].state == Closed
    ensures c in Run(s, run).rows && Run(s, run).rows[c].state == Closed
    decreases |run|
  {
    if run != [] {
      StepIsSteady(s, run[0], c);
      ClosedStays(Next(s, run[0]), run[1..], c);
    }
  }

  /** An outcome in doubt is settled for good: in every run, the process that records it closes
      the row of its command, and no later step opens the row again. */
  lemma DoubtIsSettled(run: seq<Action>, p: ProcessId, later: seq<Action>)
    requires var at := ProgressOf(Run(INITIAL, run), p); at.Invoked? && at.outcome.Unclear?
    ensures var s := Run(INITIAL, run);
            var c := ProgressOf(s, p).claim.command;
            var after := Run(Next(s, RecordOutcome(p)), later);
            c in after.rows && after.rows[c].state == Closed
  {
    var s := Run(INITIAL, run);
    RunKeeps(INITIAL, run);
    RunKeepsFence(INITIAL, run);
    assert FencedAt(s, p) && ProcessSound(s, p);
    ClosedStays(Next(s, RecordOutcome(p)), later, ProgressOf(s, p).claim.command);
  }

  /** A process that saw nothing terminal closes the row, if and only if the row is closed already
      or not correlated with a Task that the process did not see; a process that looked before
      another one created the Task leaves the row open for that one. */
  lemma UncertainCloses(run: seq<Action>, p: ProcessId, closes: bool)
    requires var at := ProgressOf(Run(INITIAL, run), p);
             at.Observed? && (at.observation.Unknown? || at.observation.RecoveryRequired?)
    ensures var s, s' := Run(INITIAL, run), Next(Run(INITIAL, run), Finish(p, closes));
            var at, c := ProgressOf(s, p), ProgressOf(s, p).claim.command;
            && c in s.rows && c in s'.rows
            && (s'.rows[c].state == Closed <==>
                  s.rows[c].state == Closed || s.rows[c].uid.None? || s.rows[c].uid == at.seen)
  {
    var s := Run(INITIAL, run);
    RunKeepsFence(INITIAL, run);
    assert FencedAt(s, p);
  }

  // ---------- What claiming and permitting do ----------

  /** A claim is given exactly of a queued or claimed command to an idle process, with a generation
      that no earlier claim of the command has. */
  lemma ClaimMeans(s: State, p: ProcessId, worker: WorkerId, prefix: string, c: CommandId)
    ensures var s' := Next(s, ClaimNext(p, worker, prefix, c));
            if ProgressOf(s, p).Idle? && c in s.rows && s.rows[c].state in {Queued, Claimed}
            then && s'.rows == s.rows[c := s.rows[c].(state := Claimed, generation := s.rows[c].generation + 1,
                                                      worker := worker)]
                 && ProgressOf(s', p) == Holding(Claim(c, s.rows[c].generation + 1, worker), TaskName(prefix, c))
                 && s'.tasks == s.tasks && s'.invocations == s.invocations && s'.completions == s.completions
            else s' == s
  {
  }

  /** The permit: APPENDED exactly to the holder of a claimed row with a valid lease and a grant,
      REPLAYED exactly to the holder of an effect started for the same Task, else an error. */
  lemma PermitMeans(s: State, p: ProcessId, leaseValid: bool, authorized: bool)
    requires ProgressOf(s, p).Holding?
    ensures var at, s' := ProgressOf(s, p), Next(s, PermitEffect(p, leaseValid, authorized));
            var c := at.claim.command;
            && (ProgressOf(s', p) == Permitted(at.claim, at.name) <==>
                  Holds(s, at.claim) && s.rows[c].state == Claimed && leaseValid && authorized)
            && (ProgressOf(s', p) == MayOnlyObserve(at.claim, at.name) <==>
                  Holds(s, at.claim) && s.rows[c].state == EffectStarted && s.rows[c].task == Some(at.name))
            && (ProgressOf(s', p).Idle? || ProgressOf(s', p) == Permitted(at.claim, at.name)
                || ProgressOf(s', p) == MayOnlyObserve(at.claim, at.name))
            && s'.rows == (if ProgressOf(s', p).Permitted?
                           then s.rows[c := s.rows[c].(state := EffectStarted, task := Some(at.name))] else s.rows)
            && s'.tasks == s.tasks && s'.invocations == s.invocations && s'.completions == s.completions
  {
  }

  /** A started effect is resumed exactly by its own worker, under the same claim. */
  lemma ResumeMeans(s: State, p: ProcessId, worker: WorkerId, prefix: string, c: CommandId)
    ensures var s' := Next(s, Resume(p, worker, prefix, c));
            if ProgressOf(s, p).Idle? && c in s.rows && s.rows[c].state == EffectStarted && s.rows[c].worker == worker
            then && ProgressOf(s', p) == Holding(Claim(c, s.rows[c].generation, worker), TaskName(prefix, c))
                 && s'.rows == s.rows && s'.tasks == s.tasks && s'.invocations == s.invocations
            else s' == s
  {
  }

  // ---------- An outcome is recorded, final and completed ----------

  /** A process that holds a claim with a valid lease and a grant, of a command whose Task does not
      exist yet, gets to invoke the transport, once, with the Task marked Running. */
  lemma ClaimLeadsToInvocation(s: State, p: ProcessId, uid: Uid, outcome: Outcome)
    requires var at := ProgressOf(s, p);
             && at.Holding? && Holds(s, at.claim) && at.name !in s.tasks
             && s.rows[at.claim.command].state == Claimed && s.rows[at.claim.command].uid == None
    ensures var at := ProgressOf(s, p);
            var s1 := Next(s, PermitEffect(p, true, true));
            var s2 := Next(s1, CreateTask(p, Some(uid)));
            var s3 := Next(Next(s2, Correlate(p)), MarkRunning(p));
            var s4 := Next(s3, Invoke(p, outcome));
            && s1.rows[at.claim.command].state == EffectStarted && s1.rows[at.claim.command].task == Some(at.name)
            && at.name in s3.tasks && s3.tasks[at.name] == Task(Some(at.claim), Some(uid), Running)
            && s3.invocations == s.invocations && s3.rows[at.claim.command].uid == Some(uid)
            && s4.invocations == s.invocations + [(at.claim.command, outcome)]
            && ProgressOf(s4, p) == Invoked(at.claim, at.name, uid, outcome)
  {
    var at := ProgressOf(s, p);
    var s1 := Next(s, PermitEffect(p, true, true));
    assert ProgressOf(s1, p) == Permitted(at.claim, at.name);
    var s2 := Next(s1, CreateTask(p, Some(uid)));
    assert ProgressOf(s2, p) == Created(at.claim, at.name, uid);
    var s3 := Next(s2, Correlate(p));
    assert ProgressOf(s3, p) == Correlated(at.claim, at.name, uid);
  }

  /** The observation that an outcome calls for. */
  function ObservationFor(outcome: Outcome): Observation {
    match outcome
    case Output(text) => SucceededWith(text)
    case Error(reason) => FailedWith(if reason == "" then "RUNTIME_FAILED" else reason)
    case Unclear => Unknown
  }

  /** In every run, a process with a clear outcome that records, observes and finishes completes the
      command with that outcome. */
  lemma OutcomeIsCompleted(run: seq<Action>, p: ProcessId, closes: bool)
    requires var at := ProgressOf(Run(INITIAL, run), p); at.Invoked? && !at.outcome.Unclear?
    ensures var s, at := Run(INITIAL, run), ProgressOf(Run(INITIAL, run), p);
            var s1 := Next(s, RecordOutcome(p));
            var s3 := Next(Next(s1, Observe(p)), Finish(p, closes));
            && at.name in s1.tasks && ObservationOf(s1, at.name) == ObservationFor(at.outcome)
            && s3.completions == s.completions + {(at.claim.command, ObservationFor(at.outcome))}
  {
    RunKeeps(INITIAL, run);
    assert ProcessSound(Run(INITIAL, run), p);
    RecordThenFinish(Run(INITIAL, run), p, closes);
  }

  lemma RecordThenFinish(s: State, p: ProcessId, closes: bool)
    requires var at := ProgressOf(s, p); at.Invoked? && !at.outcome.Unclear? && Matches(s, at.claim, at.name)
    ensures var at, s1 := ProgressOf(s, p), Next(s, RecordOutcome(p));
            var s3 := Next(Next(s1, Observe(p)), Finish(p, closes));
            && at.name in s1.tasks && ObservationOf(s1, at.name) == ObservationFor(at.outcome)
            && s3.completions == s.completions + {(at.claim.command, ObservationFor(at.outcome))}
  {
    var at, s1 := ProgressOf(s, p), Next(s, RecordOutcome(p));
    assert ProgressOf(s1, p) == MustObserve(at.claim, at.name) && Matches(s1, at.claim, at.name);
    var s2 := Next(s1, Observe(p));
    assert ProgressOf(s2, p).Observed? && s2.completions == s.completions;
    CompletionAddedIff(s2, Finish(p, closes));
  }

  /** When a completion is added: exactly by a process that finishes with a terminal observation. */
  lemma CompletionAddedIff(s: State, a: Action)
    ensures Next(s, a).completions != s.completions ==>
              a.Finish? && ProgressOf(s, a.p).Observed?
              && (ProgressOf(s, a.p).observation.SucceededWith? || ProgressOf(s, a.p).observation.FailedWith?)
    ensures a.Finish? && ProgressOf(s, a.p).Observed?
            && (ProgressOf(s, a.p).observation.SucceededWith? || ProgressOf(s, a.p).observation.FailedWith?) ==>
              Next(s, a).completions
              == s.completions + {(ProgressOf(s, a.p).claim.command, ProgressOf(s, a.p).observation)}
  {
  }

  predicate HasEnded(task: Task) {
    task.owner.Some? && (task.status.Succeeded? || task.status.Failed?)
  }

  predicate Awaits(at: Progress, c: CommandId) {
    at.Invoked? && at.claim.command == c
  }

  predicate PendingAt(s: State, p: ProcessId) {
    var at := ProgressOf(s, p);
    at.Invoked? ==> at.name in s.tasks && !HasEnded(s.tasks[at.name])
  }

  /** One process at most knows an outcome that its Task does not show yet. */
  ghost predicate OutcomesPending(s: State) {
    && (forall p {:trigger PendingAt(s, p)} :: PendingAt(s, p))
    && (forall p, q, c {:trigger Awaits(ProgressOf(s, p), c), Awaits(ProgressOf(s, q), c)} ::
          Awaits(ProgressOf(s, p), c) && Awaits(ProgressOf(s, q), c) ==> p == q)
  }

  /** The Task of a process with a licence shows no outcome, and nobody awaits to record one. */
  lemma LicenceMeansPending(s: State, p: ProcessId, q: ProcessId)
    requires Invariant(s) && (ProgressOf(s, p).MarkedRunning? || ProgressOf(s, p).Correlated?)
    ensures var at := ProgressOf(s, p);
            && at.name in s.tasks && !HasEnded(s.tasks[at.name]) && !Awaits(ProgressOf(s, q), at.claim.command)
  {
    var at, c := ProgressOf(s, p), ProgressOf(s, p).claim.command;
    assert Licensed(at, c) && LicenceSound(s, p, c) && ProcessSound(s, p) && ProcessSound(s, q);
    assert !IsInvoked(s, c);
    assert TaskSound(s, at.name);
  }

  /** Which steps change a Task. */
  lemma TaskAfter(s: State, a: Action, name: TaskName)
    requires name in s.tasks
    ensures var s' := Next(s, a);
            && name in s'.tasks && s'.tasks[name].owner == s.tasks[name].owner
            && (s'.tasks[name] != s.tasks[name] ==>
                  || (a.MarkRunning? && ProgressOf(s, a.p).Correlated? && ProgressOf(s, a.p).name == name)
                  || (a.RecordOutcome? && ProgressOf(s, a.p).Invoked? && ProgressOf(s, a.p).name == name)
                  || (a.HandleTask? && s.tasks[name].owner.None?))
  {
  }

  /** Once its Task shows an outcome, no step changes it. */
  lemma EndedStays(s: State, a: Action, name: TaskName)
    requires Invariant(s) && OutcomesPending(s) && name in s.tasks && HasEnded(s.tasks[name])
    ensures name in Next(s, a).tasks && Next(s, a).tasks[name] == s.tasks[name]
  {
    TaskAfter(s, a, name);
    if a.MarkRunning? && ProgressOf(s, a.p).Correlated? {
      LicenceMeansPending(s, a.p, a.p);
    }
    if a.RecordOutcome? {
      assert PendingAt(s, a.p);
    }
  }

  lemma StepKeepsPending(s: State, a: Action)
    requires Invariant(s) && OutcomesPending(s)
    ensures OutcomesPending(Next(s, a))
  {
    var s' := Next(s, a);
    forall q ensures PendingAt(s', q) { PendingAfter(s, a, q); }
    forall p, q, c | Awaits(ProgressOf(s', p), c) && Awaits(ProgressOf(s', q), c) ensures p == q {
      AwaitsOnce(s, a, p, q, c);
    }
  }

  /** Who awaits to record an outcome did so before, or has just invoked. */
  lemma AwaitsBefore(s: State, a: Action, q: ProcessId)
    requires ProgressOf(Next(s, a), q).Invoked?
    ensures ProgressOf(s, q) == ProgressOf(Next(s, a), q)
         || (a.Invoke? && a.p == q && ProgressOf(s, q).MarkedRunning?
             && ProgressOf(s, q).claim == ProgressOf(Next(s, a), q).claim
             && ProgressOf(s, q).name == ProgressOf(Next(s, a), q).name && Next(s, a).tasks == s.tasks)
  {
  }

  lemma AwaitsOnce(s: State, a: Action, p: ProcessId, q: ProcessId, c: CommandId)
    requires Invariant(s) && OutcomesPending(s)
    requires Awaits(ProgressOf(Next(s, a), p), c) && Awaits(ProgressOf(Next(s, a), q), c)
    ensures p == q
  {
    AwaitsBefore(s, a, p);
    AwaitsBefore(s, a, q);
    if ProgressOf(s, p).MarkedRunning? {
      LicenceMeansPending(s, p, q);
    } else if ProgressOf(s, q).MarkedRunning? {
      LicenceMeansPending(s, q, p);
    }
  }

  lemma PendingAfter(s: State, a: Action, q: ProcessId)
    requires Invariant(s) && OutcomesPending(s)
    ensures PendingAt(Next(s, a), q)
  {
    var s', at := Next(s, a), ProgressOf(Next(s, a), q);
    if at.Invoked? {
      AwaitsBefore(s, a, q);
      if ProgressOf(s, q) == at {
        assert PendingAt(s, q) && ProcessSound(s, q);
        TaskAfter(s, a, at.name);
        if a.RecordOutcome? && ProgressOf(s, a.p).Invoked? && ProgressOf(s, a.p).name == at.name {
          assert ProcessSound(s, a.p);
          assert Awaits(ProgressOf(s, a.p), at.claim.command) && Awaits(ProgressOf(s, q), at.claim.command);
        }
      } else {
        LicenceMeansPending(s, q, q);
      }
    }
  }

  lemma {:induction false} RunKeepsPending(s: State, run: seq<Action>)
    requires Invariant(s) && OutcomesPending(s)
    ensures Invariant(Run(s, run)) && OutcomesPending(Run(s, run))
    decreases |run|
  {
    if run != [] {
      StepKeeps(s, run[0]);
      StepKeepsPending(s, run[0]);
      RunKeepsPending(Next(s, run[0]), run[1..]);
    }
  }

  lemma {:induction false} EndedStaysInRun(s: State, run: seq<Action>, name: TaskName)
    requires Invariant(s) && OutcomesPending(s) && name in s.tasks && HasEnded(s.tasks[name])
    ensures name in Run(s, run).tasks && Run(s, run).tasks[name] == s.tasks[name]
    decreases |run|
  {
    if run != [] {
      EndedStays(s, run[0], name);
      StepKeeps(s, run[0]);
      StepKeepsPending(s, run[0]);
      EndedStaysInRun(Next(s, run[0]), run[1..], name);
    }
  }

  /** A recorded outcome is final: whatever processes do afterwards, crash and resume, the Task of a
      worker keeps the outcome, so that every later observation is that of the outcome. */
  lemma OutcomeIsFinal(run: seq<Action>, later: seq<Action>, name: TaskName)
    requires name in Run(INITIAL, run).tasks && HasEnded(Run(INITIAL, run).tasks[name])
    ensures var s, s' := Run(INITIAL, run), Run(Run(INITIAL, run), later);
            && name in s'.tasks && s'.tasks[name] == s.tasks[name]
            && ObservationOf(s', name) == ObservationOf(s, name)
  {
    RunKeepsPending(INITIAL, run);
    EndedStaysInRun(Run(INITIAL, run), later, name);
  }
}
