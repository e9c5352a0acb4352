/** Uninterrupted reconciliations, one after the other: a reconciliation that created nothing is
    quiescent, and rounds of reconciling and executing bring the Workflow to its end
    (operator/src/agent_operator/workflow_controller.py). */
module WorkflowConvergence {
  import opened Wrappers
  import opened Sequences
  import opened WorkflowGraph
  import opened WorkflowReconcile
  import opened WorkflowRuns
  import opened WorkflowProgress
  import opened WorkflowSerial

  datatype Cluster = Cluster(tasks: Tasks, status: Status)

  const EMPTY := Cluster(map[], Status(None, None, map[]))

  /** The effect of one uninterrupted reconciliation, as proved of ReconcileWorkflow. */
  ghost function Reconciled(w: Workflow, c: Cluster): Cluster {
    Cluster(w.AfterCreates(c.tasks, c.tasks, c.status),
            Write(c.status, PatchTo(c.status, w.Desired(c.tasks, c.status))))
  }

  ghost predicate ClusterInvariant(w: Workflow, c: Cluster) {
    Sound(w, c.tasks) && StatusSound(w, c.tasks, c.status) && Shaped(c.tasks, c.status)
  }

  // ---------- Uninterrupted reconciliations keep the invariant ----------

  lemma {:induction false} CreateAllIsSound(w: Workflow, tasks: Tasks, body: Status, attempts: seq<Name>)
    requires w.Valid() && Sound(w, tasks) && forall n | n in attempts :: n in w.ReadyList(tasks, body)
    ensures Sound(w, w.CreateAll(tasks, attempts, tasks)) && Evolves(tasks, w.CreateAll(tasks, attempts, tasks))
  {
    if attempts != [] {
      var last := |attempts| - 1;
      var before, n := w.CreateAll(tasks, attempts[..last], tasks), attempts[last];
      CreateAllIsSound(w, tasks, body, attempts[..last]);
      if w.HasResults(n, tasks) && n !in before {
        CreateKeepsSound(w, before, tasks, body, n);
        EvolvesTransitive(tasks, before, before[n := w.NewTask(n, tasks)]);
      }
    }
  }

  lemma ReconcileKeepsInvariant(w: Workflow, c: Cluster)
    requires w.Valid() && ClusterInvariant(w, c)
    ensures ClusterInvariant(w, Reconciled(w, c)) && Evolves(c.tasks, Reconciled(w, c).tasks)
  {
    var desired := w.Desired(c.tasks, c.status);
    WritesAreExact(w, c.tasks, c.tasks, c.status);
    DesiredIsSound(w, c.tasks, c.tasks, c.status);
    CreateAllIsSound(w, c.tasks, c.status, w.ReadyList(c.tasks, c.status));
    EvolutionKeepsStatus(w, c.tasks, Reconciled(w, c).tasks, desired);
  }

  lemma EmptyClusterInvariant(w: Workflow)
    ensures ClusterInvariant(w, EMPTY)
  {}

  // ---------- Quiescence ----------

  /** Once written, the skips of a reconciliation are what the next one observes. */
  lemma WrittenSkipsAreObserved(w: Workflow, c: Cluster)
    requires w.Valid() && ClusterInvariant(w, c)
    ensures w.Observed(c.tasks, w.Desired(c.tasks, c.status)) == w.Effective(c.tasks, c.status)
  {
    var desired, effective := w.Desired(c.tasks, c.status), w.Effective(c.tasks, c.status);
    var observed := w.Observed(c.tasks, desired);
    w.NodeKeys(c.tasks, c.status);
    EffectiveIsTrue(w, c.tasks, c.status);
    forall n {:trigger n in observed} {:trigger n in effective}
      ensures (n in observed <==> n in effective) && (n in effective ==> observed[n] == effective[n])
    {
      if n in Names(w.tasks) {
        w.NodePhase(c.tasks, c.status, n);
        TruePhaseSettled(w, c.tasks, n);
      } else {
        assert n !in Elements(Names(w.tasks));
        ByNameKeys(w.tasks);
        assert n in c.tasks ==> SoundTask(w, c.tasks, n);
      }
    }
    SamePhases(observed, effective);
  }

  lemma {:induction false} NoBlockingPathLeft(graph: Graph, phases: map<Name, Phase>, p: seq<Name>)
    ensures !graph.BlockingPath(graph.Effective(phases), p)
    decreases |p|
  {
    var effective := graph.Effective(phases);
    if graph.BlockingPath(effective, p) {
      assert graph.DependsOn(p[0], p[1]);
      if |p| > 2 {
        var rest := p[1..];
        forall i | 0 <= i < |rest| - 1 ensures graph.DependsOn(rest[i], rest[i + 1]) && rest[i] !in effective {
          assert graph.DependsOn(p[i + 1], p[i + 2]);
        }
        NoBlockingPathLeft(graph, phases, rest);
      } else {
        graph.BlocksDependent(phases, p[0], p[1]);
      }
    }
  }

  /** Skip propagation finds nothing more in phases that it has completed. */
  lemma NothingMoreToSkip(graph: Graph, phases: map<Name, Phase>)
    ensures graph.Blocked(graph.Effective(phases)) == {}
    ensures graph.Effective(graph.Effective(phases)) == graph.Effective(phases)
  {
    forall p ensures !graph.BlockingPath(graph.Effective(phases), p) {
      NoBlockingPathLeft(graph, phases, p);
    }
  }

  lemma SameNodes(a: map<Name, NodeStatus>, b: map<Name, NodeStatus>)
    requires a.Keys == b.Keys && forall n {:trigger a[n]} | n in a :: a[n] == b[n]
    ensures a == b
  {}

  lemma NodesAreStable(w: Workflow, c: Cluster)
    requires w.Valid() && w.Skips(c.tasks, w.Desired(c.tasks, c.status)) == {}
    ensures w.Nodes(c.tasks, w.Desired(c.tasks, c.status)) == w.Nodes(c.tasks, c.status)
  {
    var before, after := w.Nodes(c.tasks, c.status), w.Nodes(c.tasks, w.Desired(c.tasks, c.status));
    w.NodeKeys(c.tasks, c.status);
    w.NodeKeys(c.tasks, w.Desired(c.tasks, c.status));
    forall n {:trigger after[n]} | n in after ensures after[n] == before[n] {
      assert n in Elements(Names(w.tasks));
      NodeIsStable(w, c, n);
    }
    SameNodes(after, before);
  }

  /** A status that a reconciliation wants is one that the next reconciliation wants. */
  lemma DesiredIsStable(w: Workflow, c: Cluster)
    requires w.Valid() && ClusterInvariant(w, c)
    ensures w.Desired(c.tasks, w.Desired(c.tasks, c.status)) == w.Desired(c.tasks, c.status)
    ensures w.ReadyList(c.tasks, w.Desired(c.tasks, c.status)) == w.ReadyList(c.tasks, c.status)
  {
    WrittenSkipsAreObserved(w, c);
    NothingMoreToSkip(GraphOf(w.tasks), w.Observed(c.tasks, c.status));
    NodesAreStable(w, c);
  }

  lemma NodeIsStable(w: Workflow, c: Cluster, n: Name)
    requires w.Valid() && n in Names(w.tasks)
    requires w.Skips(c.tasks, w.Desired(c.tasks, c.status)) == {}
    requires n in w.Nodes(c.tasks, c.status) && n in w.Nodes(c.tasks, w.Desired(c.tasks, c.status))
    ensures w.Nodes(c.tasks, w.Desired(c.tasks, c.status))[n] == w.Nodes(c.tasks, c.status)[n]
  {
    w.NodeOf(c.tasks, c.status, n);
    w.NodeOf(c.tasks, w.Desired(c.tasks, c.status), n);
    if n in w.Skips(c.tasks, c.status) {
      GraphOf(w.tasks).BlockedIsUnscheduled(w.Observed(c.tasks, c.status), n);
    }
  }

  /** Quiescence: after a reconciliation that created nothing, repeating it creates nothing
      and writes nothing. */
  lemma Quiescence(w: Workflow, c: Cluster)
    requires w.Valid() && ClusterInvariant(w, c) && Reconciled(w, c).tasks == c.tasks
    ensures Reconciled(w, Reconciled(w, c)) == Reconciled(w, c)
    ensures PatchTo(Reconciled(w, c).status, w.Desired(c.tasks, Reconciled(w, c).status)) == None
  {
    WritesAreExact(w, c.tasks, c.tasks, c.status);
    DesiredIsStable(w, c);
  }

  // ---------- Convergence ----------

  /** The existing Tasks run to their end, with any outcome. */
  predicate RunsToEnd(before: Tasks, after: Tasks) {
    && after.Keys == before.Keys
    && forall n {:trigger after[n]} | n in before ::
         if Terminal(before[n].phase) then after[n] == before[n]
         else && after[n].prompt == before[n].prompt
              && (after[n].phase == Succeeded || HasFailed(after[n].phase))
              && (after[n].result.Some? <==> after[n].phase == Succeeded)
  }

  /** One round: reconcile, then let all Tasks finish. */
  ghost predicate Round(w: Workflow, before: Cluster, after: Cluster) {
    RunsToEnd(Reconciled(w, before).tasks, after.tasks) && after.status == Reconciled(w, before).status
  }

  lemma RunsToEndIsSound(w: Workflow, before: Tasks, after: Tasks)
    requires w.Valid() && Sound(w, before) && RunsToEnd(before, after)
    ensures Sound(w, after) && Evolves(before, after) && AllTerminal(after)
  {
    assert Evolves(before, after);
    forall n | n in after ensures SoundTask(w, after, n) && Terminal(after[n].phase) {
      assert SoundTask(w, before, n);
      SoundTaskFrame(w, before, after, n);
    }
  }

  lemma RoundKeepsInvariant(w: Workflow, before: Cluster, after: Cluster)
    requires w.Valid() && ClusterInvariant(w, before) && Round(w, before, after)
    ensures ClusterInvariant(w, after) && AllTerminal(after.tasks)
  {
    ReconcileKeepsInvariant(w, before);
    RunsToEndIsSound(w, Reconciled(w, before).tasks, after.tasks);
    EvolutionKeepsStatus(w, Reconciled(w, before).tasks, after.tasks, after.status);
  }

  lemma {:induction false} NothingNew(w: Workflow, tasks: Tasks, attempts: seq<Name>)
    requires forall n | n in attempts :: n in tasks
    ensures w.CreateAll(tasks, attempts, tasks) == tasks
  {
    if attempts != [] {
      NothingNew(w, tasks, attempts[..|attempts| - 1]);
      assert attempts[|attempts| - 1] in attempts;
    }
  }

  /** When every task is settled, nothing can be created. */
  lemma SettledCreatesNothing(w: Workflow, c: Cluster)
    requires w.Valid() && Sound(w, c.tasks) && forall n | n in Names(w.tasks) :: IsSettled(w, c.tasks, n)
    ensures Reconciled(w, c).tasks == c.tasks
  {
    forall n | n in w.ReadyList(c.tasks, c.status) ensures n in c.tasks {
      ReadyMeansOpen(w, c.tasks, c.status, n);
    }
    NothingNew(w, c.tasks, w.ReadyList(c.tasks, c.status));
  }

  lemma CreatingGrows(w: Workflow, tasks: Tasks, body: Status)
    requires exists n :: n in w.ReadyList(tasks, body) && w.HasResults(n, tasks) && n !in tasks
    ensures |w.AfterCreates(tasks, tasks, body)| > |tasks|
  {
    var n :| n in w.ReadyList(tasks, body) && w.HasResults(n, tasks) && n !in tasks;
    var after := w.AfterCreates(tasks, tasks, body);
    w.CreateAllResult(tasks, w.ReadyList(tasks, body), tasks);
    SubsetSize(tasks.Keys, after.Keys);
    assert n in after;
  }

  lemma FinalRound(w: Workflow, before: Cluster, after: Cluster)
    requires w.Valid() && ClusterInvariant(w, before) && AllTerminal(before.tasks) && Round(w, before, after)
    requires IsFinal(w.Desired(before.tasks, before.status))
    ensures Finished(w, after.tasks, after.status)
  {
    ReportedPhase(w, before.tasks, before.status);
    SettledCreatesNothing(w, before);
    TerminalStays(before.tasks, after.tasks);
    WritesAreExact(w, before.tasks, before.tasks, before.status);
  }

  lemma TerminalStays(before: Tasks, after: Tasks)
    requires AllTerminal(before) && RunsToEnd(before, after)
    ensures after == before
  {
    forall n | n in before ensures after[n] == before[n] {}
  }

  /** A round finishes the Workflow or creates at least one Task; a finished Workflow stays finished. */
  lemma RoundMakesProgress(w: Workflow, before: Cluster, after: Cluster)
    requires w.Valid() && ClusterInvariant(w, before) && AllTerminal(before.tasks) && Round(w, before, after)
    ensures Finished(w, after.tasks, after.status) || |after.tasks| > |before.tasks|
    ensures Finished(w, before.tasks, before.status) ==> Finished(w, after.tasks, after.status)
  {
    ReportedPhase(w, before.tasks, before.status);
    if IsFinal(w.Desired(before.tasks, before.status)) {
      FinalRound(w, before, after);
    } else {
      NoDeadlock(w, before.tasks, before.status);
      CreatingGrows(w, before.tasks, before.status);
      assert |after.tasks| == |after.tasks.Keys| && |Reconciled(w, before).tasks| == |Reconciled(w, before).tasks.Keys|;
    }
  }

  lemma TasksFit(w: Workflow, c: Cluster)
    requires w.Valid() && ClusterInvariant(w, c)
    ensures |c.tasks| <= |w.tasks|
  {
    ByNameKeys(w.tasks);
    forall n | n in c.tasks ensures n in Elements(Names(w.tasks)) {
      assert SoundTask(w, c.tasks, n);
    }
    SubsetSize(c.tasks.Keys, Elements(Names(w.tasks)));
    ElementsSize(Names(w.tasks));
  }

  lemma {:induction false} RoundsProgress(w: Workflow, rounds: seq<Cluster>, k: nat)
    requires w.Valid() && rounds != [] && ClusterInvariant(w, rounds[0]) && AllTerminal(rounds[0].tasks)
    requires forall i | 0 <= i < |rounds| - 1 :: Round(w, rounds[i], rounds[i + 1])
    requires k < |rounds|
    ensures ClusterInvariant(w, rounds[k]) && AllTerminal(rounds[k].tasks)
    ensures Finished(w, rounds[k].tasks, rounds[k].status) || |rounds[k].tasks| >= k
  {
    if k > 0 {
      RoundsProgress(w, rounds, k - 1);
      assert Round(w, rounds[k - 1], rounds[k]);
      RoundKeepsInvariant(w, rounds[k - 1], rounds[k]);
      RoundMakesProgress(w, rounds[k - 1], rounds[k]);
    }
  }

  /** Convergence: whatever the outcomes of the Tasks, more rounds than there are tasks bring the
      Workflow to a final phase, Succeeded if and only if every task has succeeded. */
  lemma Convergence(w: Workflow, rounds: seq<Cluster>)
    requires w.Valid() && |rounds| > |w.tasks| + 1 && rounds[0] == EMPTY
    requires forall i | 0 <= i < |rounds| - 1 :: Round(w, rounds[i], rounds[i + 1])
    ensures Finished(w, rounds[|rounds| - 1].tasks, rounds[|rounds| - 1].status)
  {
    EmptyClusterInvariant(w);
    RoundsProgress(w, rounds, |rounds| - 1);
    TasksFit(w, rounds[|rounds| - 1]);
  }

  // ---------- Serialized reconciliations among all runs ----------

  lemma {:induction false} CreatesAreARun(w: Workflow, s: State, body: Status, attempts: seq<Name>)
    returns (run: seq<Action>)
    requires s.tasks in s.seenTasks && body in s.seenStatuses
    requires forall n | n in attempts :: n in w.ReadyList(s.tasks, body)
    ensures IsRun(w, s, run)
    ensures var s' := After(w, s, run);
      && s'.tasks == w.CreateAll(s.tasks, attempts, s.tasks) && s'.status == s.status
      && s.seenTasks <= s'.seenTasks && s.seenStatuses <= s'.seenStatuses
  {
    run := [];
    if attempts != [] {
      var last := |attempts| - 1;
      run := CreatesAreARun(w, s, body, attempts[..last]);
      if w.HasResults(attempts[last], s.tasks) {
        RunThen(w, s, run, CreateTask(s.tasks, body, attempts[last]));
        run := run + [CreateTask(s.tasks, body, attempts[last])];
      }
    }
  }

  /** What ReconcileWorkflow does, uninterrupted, is a run of the interleaved system. */
  lemma ReconcileIsARun(w: Workflow, s: State) returns (run: seq<Action>)
    requires s.tasks in s.seenTasks && s.status in s.seenStatuses
    ensures IsRun(w, s, run)
    ensures Cluster(After(w, s, run).tasks, After(w, s, run).status) == Reconciled(w, Cluster(s.tasks, s.status))
  {
    run := CreatesAreARun(w, s, s.status, w.ReadyList(s.tasks, s.status));
    RunThen(w, s, run, WriteStatus(s.tasks, s.status));
    run := run + [WriteStatus(s.tasks, s.status)];
  }
}
