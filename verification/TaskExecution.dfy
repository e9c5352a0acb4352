/** The create_task handler (operator/src/agent_operator/task_controller.py) under redelivery and
    crashes: Running is persisted before the coordinator runs, and a replay that finds it gives up. */
module TaskExecution {
  import opened Wrappers
  import WorkflowGraph
  import WorkflowReconcile
  import WorkflowRuns
  import Retry

  type Task = WorkflowReconcile.Task

  /** How coordinator.execute classifies an execution; `Raised` is an exception of its own. */
  datatype Execution = Succeeded(result: Option<string>) | Denied | Unknown | OtherClass | Raised

  /** What preparing the execution leads to: an error that the handler catches, one that it does
      not, or a context to execute in. */
  datatype Preparation = Refused | Unavailable | Ready

  /** What one delivery of the handler meets. */
  datatype Delivery = Delivery(
    managed: bool,                          // the Task carries the native dispatch label
    preparation: Preparation,
    clock: nat -> real, start: real,
    execution: nat -> Execution,
    timeout: real)

  /** The operation that is retried; every failure that it raises itself is final. */
  function OutcomeOf(e: Execution): Retry.Outcome {
    match e
    case Succeeded(Some(result)) => Retry.Output(result)
    case Succeeded(None) => Retry.Error("InvalidResponse", false)
    case Denied => Retry.Error("AuthorizationError", false)
    case Unknown => Retry.Error("ExecutionOutcomeUnknown", false)
    case OtherClass => Retry.Error("InvalidRequest", false)
    case Raised => Retry.Raised
  }

  function WorldOf(d: Delivery): Retry.World {
    Retry.World(d.start, d.clock, (i: nat) => OutcomeOf(d.execution(i)))
  }

  ghost predicate IsTrace(d: Delivery, t: Retry.Trace) {
    Retry.Describes(WorldOf(d), d.timeout, Retry.DEFAULT_MAX_ATTEMPTS, Retry.DEFAULT_INITIAL_BACKOFF, t)
  }

  /** What the handler does to the outside, in order: a write of the status or calls of the
      coordinator. A crash may come before, between or after the steps. */
  datatype Step = Write(task: Task) | Execute(calls: nat)

  function With(task: Task, phase: WorkflowGraph.Phase, result: Option<string>): Task {
    task.(phase := phase, result := result)
  }

  /** The write that records how the retried operation ended; other exceptions leave the handler. */
  function Finally(task: Task, ending: Retry.Ending): seq<Step> {
    match ending
    case Returned(result, _) => [Write(With(task, WorkflowGraph.Succeeded, Some(result)))]
    case Exhausted(reason, _, _) =>
      [Write(With(task, if reason == "ExecutionTimeout" then WorkflowGraph.TimedOut else WorkflowGraph.Failed, None))]
    case _ => []
  }

  predicate IsTerminal(phase: WorkflowGraph.Phase) {
    phase == WorkflowGraph.Succeeded || phase == WorkflowGraph.Failed || phase == WorkflowGraph.TimedOut
  }

  /** The delivery gets as far as executing the Task. */
  predicate Executes(task: Task, d: Delivery) {
    !d.managed && !IsTerminal(task.phase) && task.phase != WorkflowGraph.Running && d.preparation == Ready
  }

  function Steps(task: Task, d: Delivery, t: Retry.Trace): seq<Step> {
    if d.managed || IsTerminal(task.phase) then []
    else if task.phase == WorkflowGraph.Running then [Write(With(task, WorkflowGraph.Failed, None))]
    else match d.preparation
      case Unavailable => []
      case Refused => [Write(With(task, WorkflowGraph.Failed, None))]
      case Ready => [Write(With(task, WorkflowGraph.Running, None)), Execute(|t.calls|)] + Finally(task, t.ending)
  }

  /** The persisted Task, every version of it so far, and how often the coordinator ran. */
  datatype State = State(task: Task, versions: seq<Task>, runs: nat)

  function Apply(s: State, step: Step): State {
    match step
    case Write(task) => State(task, s.versions + [task], s.runs)
    case Execute(calls) => s.(runs := s.runs + calls)
  }

  function ApplyAll(s: State, steps: seq<Step>): State {
    if steps == [] then s else Apply(ApplyAll(s, steps[..|steps| - 1]), steps[|steps| - 1])
  }

  /** The Task as the API server holds it, updated by the handler. */
  class TaskResource {
    var task: Task
    ghost var versions: seq<Task>
    var runs: nat

    constructor (task: Task)
      ensures View() == State(task, [task], 0)
    {
      this.task, versions, runs := task, [task], 0;
    }

    ghost function View(): State
      reads this
    {
      State(task, versions, runs)
    }

    method Patch(phase: WorkflowGraph.Phase, result: Option<string>)
      modifies this
      ensures View() == Apply(old(View()), Write(With(old(task), phase, result)))
    {
      task := With(task, phase, result);
      versions := versions + [task];
    }

    /** The handler, when it is not interrupted. */
    method CreateTask(d: Delivery) returns (t: Retry.Trace)
      modifies this
      ensures Executes(old(task), d) ==> IsTrace(d, t)
      ensures View() == ApplyAll(old(View()), Steps(old(task), d, t))
      ensures DeliveryMeans(old(View()), d, View())
    {
      ghost var before, s := task, View();
      t := Retry.Trace(Retry.Propagated, [], []);
      ThreeSteps(s, Steps(before, d, t));
      if !Executes(before, d) {
        OtherDelivery(s, d, t);
      }
      if d.managed || IsTerminal(task.phase) {
        return;
      }
      if task.phase == WorkflowGraph.Running {
        Patch(WorkflowGraph.Failed, None);
        return;
      }
      match d.preparation
      case Unavailable => return;
      case Refused => Patch(WorkflowGraph.Failed, None);
      case Ready =>
        Patch(WorkflowGraph.Running, None);
        t := Retry.ExecuteWithRetry(WorldOf(d), d.timeout, Retry.DEFAULT_MAX_ATTEMPTS, Retry.DEFAULT_INITIAL_BACKOFF);
        runs := runs + |t.calls|;
        ThreeSteps(s, Steps(before, d, t));
        CompleteDelivery(s, d, t);
        match t.ending
        case Returned(result, _) => Patch(WorkflowGraph.Succeeded, Some(result));
        case Exhausted(reason, _, _) =>
          Patch(if reason == "ExecutionTimeout" then WorkflowGraph.TimedOut else WorkflowGraph.Failed, None);
        case _ =>
    }
  }

  lemma ThreeSteps(s: State, steps: seq<Step>)
    requires |steps| <= 3
    ensures |steps| == 0 ==> ApplyAll(s, steps) == s
    ensures |steps| == 1 ==> ApplyAll(s, steps) == Apply(s, steps[0])
    ensures |steps| == 2 ==> ApplyAll(s, steps) == Apply(Apply(s, steps[0]), steps[1])
    ensures |steps| == 3 ==> ApplyAll(s, steps) == Apply(Apply(Apply(s, steps[0]), steps[1]), steps[2])
  {
    assert |steps| == 2 ==> steps[..1][..0] == [];
    assert |steps| == 3 ==> steps[..2][..1] == steps[..1] && steps[..1][..0] == [];
  }

  // ---------- What a complete delivery does ----------

  /** The coordinator is called: the timeout is valid and has not passed when the call is due. */
  predicate Called(d: Delivery) {
    d.timeout > 0.0 && d.clock(0) < d.timeout
  }

  /** What a delivery that is not interrupted makes of a Task: nothing of one that a worker manages or
      that has ended; a replay that finds Running gives up; else the Task is Running first and then
      ends by how the one execution went. */
  ghost predicate DeliveryMeans(s: State, d: Delivery, s': State) {
    if d.managed || s.task.phase in {WorkflowGraph.Succeeded, WorkflowGraph.Failed, WorkflowGraph.TimedOut} then s' == s
    else if s.task.phase == WorkflowGraph.Running then
      s'.runs == s.runs && s'.versions == s.versions + [s'.task] && EndsAs(s, s', WorkflowGraph.Failed, None)
    else match d.preparation
      case Unavailable => s' == s
      case Refused =>
        s'.runs == s.runs && s'.versions == s.versions + [s'.task] && EndsAs(s, s', WorkflowGraph.Failed, None)
      case Ready =>
        && s'.runs == s.runs + (if Called(d) then 1 else 0)
        && |s'.versions| > |s.versions| && s'.versions[..|s.versions|] == s.versions
        && s'.versions[|s.versions|] == WorkflowReconcile.Task(s.task.prompt, WorkflowGraph.Running, None)
        && s'.task == s'.versions[|s'.versions| - 1]
        && (forall x :: EndsAs(s, s', WorkflowGraph.Succeeded, Some(x)) <==>
              Called(d) && d.execution(0) == Succeeded(Some(x)))
        && (EndsAs(s, s', WorkflowGraph.TimedOut, None) <==> d.timeout > 0.0 && d.clock(0) >= d.timeout)
        && (EndsAs(s, s', WorkflowGraph.Failed, None) <==>
              Called(d) && d.execution(0) in {Succeeded(None), Denied, Unknown, OtherClass})
        && (EndsAs(s, s', WorkflowGraph.Running, None) <==> d.timeout <= 0.0 || (Called(d) && d.execution(0) == Raised))
  }

  predicate EndsAs(s: State, s': State, phase: WorkflowGraph.Phase, result: Option<string>) {
    s'.task.prompt == s.task.prompt && s'.task.phase == phase && s'.task.result == result
  }

  /** How the retried operation ends, by the timeout, the clock and the one execution. */
  lemma TraceMeans(d: Delivery, t: Retry.Trace)
    requires IsTrace(d, t)
    ensures |t.calls| == if Called(d) then 1 else 0
    ensures d.timeout <= 0.0 ==> t.ending == Retry.TimeoutInvalid
    ensures d.timeout > 0.0 && d.clock(0) >= d.timeout ==> t.ending == Retry.Exhausted("ExecutionTimeout", false, 0)
    ensures Called(d) ==>
              match d.execution(0)
              case Succeeded(Some(x)) => t.ending == Retry.Returned(x, 1)
              case Raised => t.ending == Retry.Propagated
              case _ => t.ending.Exhausted? && t.ending.reason != "ExecutionTimeout"
  {
    var w := WorldOf(d);
    OneRun(d, t);
    assert w.outcome(0) == OutcomeOf(d.execution(0));
    assert Retry.Timely(w, d.timeout, t.calls, t.sleeps, 0);
    assert Retry.Delayed(w, d.timeout, Retry.DEFAULT_INITIAL_BACKOFF, t.calls, t.sleeps, 0);
  }

  lemma CompleteDelivery(s: State, d: Delivery, t: Retry.Trace)
    requires Executes(s.task, d) && IsTrace(d, t)
    ensures DeliveryMeans(s, d, ApplyAll(s, Steps(s.task, d, t)))
  {
    TraceMeans(d, t);
    ThreeSteps(s, Steps(s.task, d, t));
  }

  lemma OtherDelivery(s: State, d: Delivery, t: Retry.Trace)
    requires !Executes(s.task, d)
    ensures DeliveryMeans(s, d, ApplyAll(s, Steps(s.task, d, t)))
  {
    ThreeSteps(s, Steps(s.task, d, t));
  }

  // ---------- Deliveries and crashes ----------

  /** A delivery that sees the current status and stops after some of its steps, by a crash or
      because it is done. */
  datatype Event = Event(delivery: Delivery, trace: Retry.Trace, done: nat)

  function Deliver(s: State, e: Event): State {
    var steps := Steps(s.task, e.delivery, e.trace);
    ApplyAll(s, if e.done < |steps| then steps[..e.done] else steps)
  }

  function Run(s: State, events: seq<Event>): State {
    if events == [] then s else Deliver(Run(s, events[..|events| - 1]), events[|events| - 1])
  }

  /** A Task as the workflow controller creates it. */
  function Created(prompt: string): State {
    var task := WorkflowReconcile.Task(prompt, WorkflowGraph.Pending, None);
    State(task, [task], 0)
  }

  /** Every version of the Task follows from the one before by a legal move. */
  ghost predicate History(versions: seq<Task>) {
    forall i | 1 <= i < |versions| :: WorkflowRuns.Moves(versions[i - 1], versions[i])
  }

  ghost predicate Sound(s: State) {
    && s.versions != [] && s.task == s.versions[|s.versions| - 1]
    && s.task.phase != WorkflowGraph.Skipped
    && (s.task.result.Some? <==> s.task.phase == WorkflowGraph.Succeeded)
    && s.runs <= 1 && (s.task.phase == WorkflowGraph.Pending ==> s.runs == 0)
    && (s.task.phase == WorkflowGraph.Succeeded ==> s.runs == 1)
    && History(s.versions)
  }

  lemma WriteKeeps(s: State, task: Task)
    requires Sound(s) && WorkflowRuns.Moves(s.task, task)
    requires task.phase == WorkflowGraph.Succeeded ==> s.runs == 1
    ensures Sound(Apply(s, Write(task)))
  {
    var versions := s.versions + [task];
    forall i | 1 <= i < |versions| ensures WorkflowRuns.Moves(versions[i - 1], versions[i]) {
      assert i < |s.versions| ==> WorkflowRuns.Moves(s.versions[i - 1], s.versions[i]);
    }
  }

  /** The coordinator runs at most once in a delivery, and a success is one of its runs. */
  lemma OneRun(d: Delivery, t: Retry.Trace)
    requires IsTrace(d, t)
    ensures |t.calls| <= 1
    ensures t.ending.Returned? ==> |t.calls| == 1 && d.execution(0) == Succeeded(Some(t.ending.result))
  {
    assert forall i: nat :: !Retry.Retryable(OutcomeOf(d.execution(i)));
    Retry.FinalFailuresCallOnce(WorldOf(d), d.timeout, Retry.DEFAULT_MAX_ATTEMPTS, Retry.DEFAULT_INITIAL_BACKOFF, t);
    assert WorldOf(d).outcome(0) == OutcomeOf(d.execution(0));
  }

  lemma DeliveryKeeps(s: State, e: Event)
    requires Sound(s) && IsTrace(e.delivery, e.trace)
    ensures Sound(Deliver(s, e))
    ensures IsTerminal(s.task.phase) ==> Deliver(s, e) == s
  {
    var steps := Steps(s.task, e.delivery, e.trace);
    var done := if e.done < |steps| then steps[..e.done] else steps;
    ThreeSteps(s, done);
    OneRun(e.delivery, e.trace);
    if done != [] {
      assert done[0] == steps[0];
      WriteKeeps(s, steps[0].task);
      var s1 := Apply(s, done[0]);
      if |done| == 3 {
        assert done[1] == steps[1] && done[2] == steps[2];
        var s2 := Apply(s1, done[1]);
        assert Sound(s2);
        WriteKeeps(s2, steps[2].task);
      }
    }
  }

  /** A Task is executed at most once, whatever deliveries and crashes there are; each version of it
      follows from the one before by a move that the workflow's safety allows; and it succeeds only
      with a result, after the one run of the coordinator. */
  lemma {:induction false} ExecutedAtMostOnce(prompt: string, events: seq<Event>)
    requires forall i | 0 <= i < |events| :: IsTrace(events[i].delivery, events[i].trace)
    ensures Sound(Run(Created(prompt), events))
  {
    if events != [] {
      ExecutedAtMostOnce(prompt, events[..|events| - 1]);
      DeliveryKeeps(Run(Created(prompt), events[..|events| - 1]), events[|events| - 1]);
    }
  }

  /** A delivery that does all its steps is complete. */
  lemma UninterruptedDelivery(s: State, e: Event)
    requires IsTrace(e.delivery, e.trace) && e.done >= 3
    ensures DeliveryMeans(s, e.delivery, Deliver(s, e))
  {
    if Executes(s.task, e.delivery) {
      CompleteDelivery(s, e.delivery, e.trace);
    } else {
      OtherDelivery(s, e.delivery, e.trace);
    }
  }

  /** Terminal phases are absorbing. */
  lemma {:induction false} TerminalStays(s: State, events: seq<Event>)
    requires Sound(s) && IsTerminal(s.task.phase)
    requires forall i | 0 <= i < |events| :: IsTrace(events[i].delivery, events[i].trace)
    ensures Run(s, events) == s
  {
    if events != [] {
      TerminalStays(s, events[..|events| - 1]);
      DeliveryKeeps(s, events[|events| - 1]);
    }
  }

  /** After an interrupted execution one complete redelivery ends the Task, without a second run. */
  lemma RedeliverySettles(s: State, e: Event)
    requires Sound(s) && s.task.phase == WorkflowGraph.Running && !e.delivery.managed && e.done >= 1
    ensures var s' := Deliver(s, e); s'.task.phase == WorkflowGraph.Failed && s'.runs == s.runs
  {
    var steps := Steps(s.task, e.delivery, e.trace);
    ThreeSteps(s, steps);
  }
}
