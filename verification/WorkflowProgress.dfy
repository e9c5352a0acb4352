/** Progress of a Workflow in every run: what its reported phase means, no deadlock, and bounded
    work (operator/src/agent_operator/workflow_controller.py). */
module WorkflowProgress {
  import opened Wrappers
  import opened Sequences
  import opened WorkflowGraph
  import opened WorkflowReconcile
  import opened WorkflowRuns

  // ---------- What the aggregated phase means ----------

  ghost predicate AllTerminal(tasks: Tasks) {
    forall n | n in tasks :: Terminal(tasks[n].phase)
  }

  /** A task is settled when its Task has finished or when it can never start. */
  ghost predicate IsSettled(w: Workflow, tasks: Tasks, n: Name) {
    (n in tasks && Terminal(tasks[n].phase)) || Doomed(w, tasks, n)
  }

  lemma TruePhaseSettled(w: Workflow, tasks: Tasks, n: Name)
    requires Sound(w, tasks) && n in Names(w.tasks)
    ensures n in TruePhases(w, tasks) <==> n in tasks || Doomed(w, tasks, n)
    ensures n in TruePhases(w, tasks) && TruePhases(w, tasks)[n] == Succeeded
       <==> n in tasks && tasks[n].phase == Succeeded
    ensures n in TruePhases(w, tasks) && Terminal(TruePhases(w, tasks)[n]) <==> IsSettled(w, tasks, n)
  {
    ByNameKeys(w.tasks);
    assert n in Elements(Names(w.tasks));
    if Doomed(w, tasks, n) {
      DoomedHasNoTask(w, tasks, n);
    }
  }

  lemma NodeTruePhase(w: Workflow, tasks: Tasks, body: Status, n: Name)
    requires w.Valid() && Sound(w, tasks) && StatusSound(w, tasks, body) && n in Names(w.tasks)
    ensures n in w.Nodes(tasks, body)
    ensures w.Nodes(tasks, body)[n].phase == if n in TruePhases(w, tasks) then TruePhases(w, tasks)[n] else Pending
  {
    w.NodePhase(tasks, body, n);
    PhaseAgrees(w, tasks, body, n);
  }

  lemma NodeSettled(w: Workflow, tasks: Tasks, body: Status, n: Name)
    requires w.Valid() && Sound(w, tasks) && StatusSound(w, tasks, body) && n in Names(w.tasks)
    ensures n in w.Nodes(tasks, body)
    ensures w.Nodes(tasks, body)[n].phase == Succeeded <==> n in tasks && tasks[n].phase == Succeeded
    ensures Terminal(w.Nodes(tasks, body)[n].phase) <==> IsSettled(w, tasks, n)
  {
    NodeTruePhase(w, tasks, body, n);
    TruePhaseSettled(w, tasks, n);
  }

  /** The Workflow is reported Succeeded exactly when every task has succeeded, and Failed
      exactly when every task is settled but not all have succeeded. */
  lemma ReportedPhase(w: Workflow, tasks: Tasks, body: Status)
    requires w.Valid() && Sound(w, tasks) && StatusSound(w, tasks, body)
    ensures w.Desired(tasks, body).phase == Some(Succeeded)
       <==> forall n | n in Names(w.tasks) :: n in tasks && tasks[n].phase == Succeeded
    ensures IsFinal(w.Desired(tasks, body)) <==> forall n | n in Names(w.tasks) :: IsSettled(w, tasks, n)
    ensures w.Desired(tasks, body).taskCount == Some(|w.tasks|)
  {
    var names, nodes := Names(w.tasks), w.Nodes(tasks, body);
    assert names[0] == w.tasks[0].name;
    forall n | n in names
      ensures n in nodes
      ensures nodes[n].phase == Succeeded <==> n in tasks && tasks[n].phase == Succeeded
      ensures Terminal(nodes[n].phase) <==> IsSettled(w, tasks, n)
    {
      NodeSettled(w, tasks, body, n);
    }
    AggregateMeans(names, nodes);
  }

  predicate IsFinal(status: Status) {
    status.phase == Some(Succeeded) || status.phase == Some(Failed)
  }

  lemma AggregateMeans(names: seq<Name>, nodes: map<Name, NodeStatus>)
    requires names != [] && forall n | n in names :: n in nodes
    ensures AggregatePhase(names, nodes) == Succeeded <==> forall n | n in names :: nodes[n].phase == Succeeded
    ensures AggregatePhase(names, nodes) == Succeeded || AggregatePhase(names, nodes) == Failed
       <==> forall n | n in names :: Terminal(nodes[n].phase)
  {}

  // ---------- No deadlock ----------

  /** The declared tasks that have neither a Task nor a failed ancestor. */
  ghost function Open(w: Workflow, tasks: Tasks): set<Name> {
    set n | n in Names(w.tasks) && n !in tasks && !Doomed(w, tasks, n)
  }

  lemma ClosedDependency(w: Workflow, tasks: Tasks, n: Name, d: Name)
    requires Sound(w, tasks) && AllTerminal(tasks)
    requires n in Open(w, tasks) && GraphOf(w.tasks).DependsOn(n, d) && d in Names(w.tasks) && d !in Open(w, tasks)
    ensures d in tasks && tasks[d].phase == Succeeded && tasks[d].result.Some?
  {
    if Doomed(w, tasks, d) || (d in tasks && HasFailed(tasks[d].phase)) {
      DependentIsDoomed(w, tasks, n, d);
    }
    assert SoundTask(w, tasks, d);
  }

  lemma SucceededDependenciesMeanReady(w: Workflow, tasks: Tasks, body: Status, n: Name)
    requires w.Valid() && Sound(w, tasks) && StatusSound(w, tasks, body) && n in Open(w, tasks)
    requires n in GraphOf(w.tasks).dependencies
    requires forall d | d in GraphOf(w.tasks).dependencies[n] ::
               d in tasks && tasks[d].phase == Succeeded && tasks[d].result.Some?
    ensures n in w.ReadyList(tasks, body) && w.HasResults(n, tasks)
  {
    var ready := GraphOf(w.tasks).Ready(w.Effective(tasks, body));
    EffectiveIsTrue(w, tasks, body);
    assert GraphOf(w.tasks).DependenciesSucceeded(n, TruePhases(w, tasks));
    assert n in ready;
    KeepElements(Names(w.tasks), ready);
    assert n in Elements(Keep(Names(w.tasks), ready));
    Declared(w.tasks, n);
  }

  /** An open task whose dependencies are all closed can be created. */
  lemma ClosedDependenciesMeanReady(w: Workflow, tasks: Tasks, body: Status, n: Name)
    requires w.Valid() && Sound(w, tasks) && StatusSound(w, tasks, body) && AllTerminal(tasks)
    requires n in Open(w, tasks) && !GraphOf(w.tasks).WaitsWithin(n, Open(w, tasks))
    ensures n in w.ReadyList(tasks, body) && w.HasResults(n, tasks)
  {
    WellFormedGraph(w.tasks);
    assert n in Elements(Names(w.tasks));
    forall d | d in GraphOf(w.tasks).dependencies[n]
      ensures d in tasks && tasks[d].phase == Succeeded && tasks[d].result.Some?
    {
      assert GraphOf(w.tasks).DependsOn(n, d);
      ClosedDependency(w, tasks, n, d);
    }
    SucceededDependenciesMeanReady(w, tasks, body, n);
  }

  /** No deadlock: when all existing Tasks have finished, a reconciliation with a current
      listing, whatever body it read, can create a Task or reports a final phase. */
  lemma NoDeadlock(w: Workflow, tasks: Tasks, body: Status)
    requires w.Valid() && Sound(w, tasks) && StatusSound(w, tasks, body) && AllTerminal(tasks)
    ensures (exists n :: n in w.ReadyList(tasks, body) && w.HasResults(n, tasks) && n !in tasks)
         || IsFinal(w.Desired(tasks, body))
  {
    var open := Open(w, tasks);
    if open == {} {
      forall n | n in Names(w.tasks) ensures IsSettled(w, tasks, n) {
        assert n !in open;
      }
      ReportedPhase(w, tasks, body);
    } else {
      if forall n {:trigger GraphOf(w.tasks).WaitsWithin(n, open)} | n in open ::
           GraphOf(w.tasks).WaitsWithin(n, open) {
        GraphOf(w.tasks).StuckMeansCycle(open);
        assert false;
      }
      var n :| n in open && !GraphOf(w.tasks).WaitsWithin(n, open);
      ClosedDependenciesMeanReady(w, tasks, body, n);
    }
  }

  /** No deadlock in any reachable state, for any body that was ever current. */
  lemma RunsDoNotDeadlock(w: Workflow, run: seq<Action>, body: Status)
    requires w.Valid() && IsRun(w, Initial(), run)
    requires AllTerminal(After(w, Initial(), run).tasks) && body in After(w, Initial(), run).seenStatuses
    ensures var tasks := After(w, Initial(), run).tasks;
      || (exists n :: n in w.ReadyList(tasks, body) && w.HasResults(n, tasks) && n !in tasks)
      || IsFinal(w.Desired(tasks, body))
  {
    InitialInvariant(w);
    RunKeepsInvariant(w, Initial(), run);
    var s := After(w, Initial(), run);
    assert StatusSound(w, s.tasks, body);
    NoDeadlock(w, s.tasks, body);
  }

  // ---------- Bounded work ----------

  function Weight(tasks: Tasks, n: Name): nat {
    if n !in tasks then 3
    else if tasks[n].phase == Pending then 2
    else if tasks[n].phase == Running then 1
    else 0
  }

  /** The work left: unscheduled tasks weigh most, finished ones nothing. */
  function Work(tasks: Tasks, names: seq<Name>): nat {
    if names == [] then 0 else Work(tasks, names[..|names| - 1]) + Weight(tasks, names[|names| - 1])
  }

  lemma {:induction false} WorkBound(names: seq<Name>)
    ensures Work(map[], names) == 3 * |names|
  {
    if names != [] {
      WorkBound(names[..|names| - 1]);
    }
  }

  lemma {:induction false} WorkDrops(before: Tasks, after: Tasks, names: seq<Name>, n: Name)
    requires forall m :: Weight(after, m) <= Weight(before, m)
    ensures Work(after, names) <= Work(before, names)
    ensures n in names && Weight(after, n) < Weight(before, n) ==> Work(after, names) < Work(before, names)
  {
    if names != [] {
      WorkDrops(before, after, names[..|names| - 1], n);
      assert names == names[..|names| - 1] + [names[|names| - 1]];
    }
  }

  /** The number of steps of a run that change a Task. */
  ghost function Changes(w: Workflow, s: State, run: seq<Action>): nat
    requires IsRun(w, s, run)
    decreases |run|
  {
    if run == [] then 0
    else
      var next := Next(w, s, run[0]);
      (if next.tasks != s.tasks then 1 else 0) + Changes(w, next, run[1..])
  }

  lemma StepDropsWork(w: Workflow, s: State, a: Action)
    requires w.Valid() && Invariant(w, s) && Enabled(w, s, a)
    ensures Work(Next(w, s, a).tasks, Names(w.tasks)) <= Work(s.tasks, Names(w.tasks))
    ensures Next(w, s, a).tasks != s.tasks ==>
              Work(Next(w, s, a).tasks, Names(w.tasks)) < Work(s.tasks, Names(w.tasks))
  {
    var next := Next(w, s, a);
    match a
    case CreateTask(listing, body, n) =>
      if n !in s.tasks {
        ReadyDependencies(w, listing, body, n);
        CreateDropsWork(w, s.tasks, n, w.NewTask(n, listing));
      }
    case WriteStatus(listing, body) =>
    case TaskMoves(n, after) =>
      assert SoundTask(w, s.tasks, n);
      MoveDropsWork(w, s.tasks, n, after);
  }

  lemma CreateDropsWork(w: Workflow, tasks: Tasks, n: Name, task: Task)
    requires n in Names(w.tasks) && n !in tasks && task.phase == Pending
    ensures Work(tasks[n := task], Names(w.tasks)) < Work(tasks, Names(w.tasks))
  {
    WorkDrops(tasks, tasks[n := task], Names(w.tasks), n);
  }

  lemma MoveDropsWork(w: Workflow, tasks: Tasks, n: Name, after: Task)
    requires n in GraphOf(w.tasks).dependencies && n in tasks && Moves(tasks[n], after)
    ensures Work(tasks[n := after], Names(w.tasks)) < Work(tasks, Names(w.tasks))
  {
    ByNameKeys(w.tasks);
    assert n in Elements(Names(w.tasks));
    WorkDrops(tasks, tasks[n := after], Names(w.tasks), n);
  }

  /** Every run changes Tasks a bounded number of times: each change uses up some of the work. */
  lemma {:induction false} BoundedWork(w: Workflow, s: State, run: seq<Action>)
    requires w.Valid() && Invariant(w, s) && IsRun(w, s, run)
    ensures Changes(w, s, run) + Work(After(w, s, run).tasks, Names(w.tasks)) <= Work(s.tasks, Names(w.tasks))
    decreases |run|
  {
    if run != [] {
      StepDropsWork(w, s, run[0]);
      StepKeepsInvariant(w, s, run[0]);
      BoundedWork(w, Next(w, s, run[0]), run[1..]);
    }
  }

  lemma RunsAreBounded(w: Workflow, run: seq<Action>)
    requires w.Valid() && IsRun(w, Initial(), run)
    ensures Changes(w, Initial(), run) <= 3 * |w.tasks|
    ensures |After(w, Initial(), run).created| <= |w.tasks|
  {
    InitialInvariant(w);
    BoundedWork(w, Initial(), run);
    WorkBound(Names(w.tasks));
    RunKeepsInvariant(w, Initial(), run);
    var s := After(w, Initial(), run);
    forall n | n in s.tasks ensures n in Elements(Names(w.tasks)) {
      assert SoundTask(w, s.tasks, n);
      ByNameKeys(w.tasks);
    }
    SubsetSize(s.tasks.Keys, Elements(Names(w.tasks)));
    ElementsSize(Names(w.tasks));
  }
}
