/** Status writes of reconciliations that overlap (operator/src/agent_operator/workflow_controller.py):
    when the merge patch of a reconciliation, made from a listing and a body that may be stale,
    leaves exactly the status that the reconciliation wants. */
module WorkflowOverlap {
  import opened Wrappers
  import opened Sequences
  import opened WorkflowGraph
  import opened WorkflowReconcile
  import opened WorkflowRuns

  // ---------- What the nodes of every status hold ----------

  /** In every run: only existing Tasks are referenced, a reason comes with a message, and a skip has
      both. A node may keep a reference or a reason that its phase no longer goes with. */
  predicate NodeFields(tasks: Tasks, n: Name, node: NodeStatus) {
    && (node.taskRef.Some? ==> n in tasks)
    && (node.reason.Some? <==> node.message.Some?)
    && (node.phase == Skipped ==> node.reason.Some?)
  }

  ghost predicate StatusFields(tasks: Tasks, status: Status) {
    forall n {:trigger NodeFields(tasks, n, status.tasks[n])} | n in status.tasks ::
      NodeFields(tasks, n, status.tasks[n])
  }

  ghost predicate FieldsInvariant(w: Workflow, s: State) {
    && Invariant(w, s)
    && forall b {:trigger StatusFields(s.tasks, b)} | b in s.seenStatuses :: StatusFields(s.tasks, b)
  }

  /** The reconciliation skips the task, by its own decision or as the body says. */
  ghost predicate IsSkipped(w: Workflow, listing: Tasks, body: Status, n: Name) {
    n in w.Effective(listing, body) && w.Effective(listing, body)[n] == Skipped
  }

  lemma SkippedIff(w: Workflow, listing: Tasks, body: Status, n: Name)
    requires n in Names(w.tasks) && (n in listing ==> listing[n].phase != Skipped)
    ensures IsSkipped(w, listing, body, n) <==>
              n in w.Skips(listing, body) || (n !in listing && n in body.tasks && body.tasks[n].phase == Skipped)
  {
    w.EffectivePhase(listing, body, n);
  }

  /** The fields that a reconciliation gives a node: a reference exactly to a listed Task, a reason
      and a message exactly to a skip. */
  lemma DesiredFields(w: Workflow, tasks: Tasks, listing: Tasks, body: Status, n: Name)
    requires w.Valid() && Sound(w, tasks) && Evolves(listing, tasks)
    requires StatusSound(w, tasks, body) && StatusFields(tasks, body) && n in Names(w.tasks)
    ensures n in w.Nodes(listing, body)
    ensures var node := w.Nodes(listing, body)[n];
            && NodeFields(tasks, n, node)
            && (node.taskRef.Some? <==> n in listing)
            && (node.reason.Some? <==> IsSkipped(w, listing, body, n))
            && (n in listing ==> node == NodeStatus(listing[n].phase, Some(w.name + "-" + n), None, None))
            && (n !in listing && !IsSkipped(w, listing, body, n) ==> node == NodeStatus(Pending, None, None, None))
  {
    w.NodeOf(listing, body, n);
    ListedIsNotSkipped(w, tasks, listing, n);
    SkippedIff(w, listing, body, n);
    if n in w.Skips(listing, body) {
      GraphOf(w.tasks).BlockedIsUnscheduled(w.Observed(listing, body), n);
    } else {
      BaseFields(w, tasks, listing, body, n);
    }
  }

  lemma ListedIsNotSkipped(w: Workflow, tasks: Tasks, listing: Tasks, n: Name)
    requires Sound(w, tasks) && Evolves(listing, tasks)
    ensures n in listing ==> listing[n].phase != Skipped
  {
    if n in listing {
      assert SoundTask(w, tasks, n);
    }
  }

  lemma BaseFields(w: Workflow, tasks: Tasks, listing: Tasks, body: Status, n: Name)
    requires Sound(w, tasks) && Evolves(listing, tasks) && StatusSound(w, tasks, body) && StatusFields(tasks, body)
    requires w.Valid() && n in Names(w.tasks) && (n in listing ==> listing[n].phase != Skipped)
    ensures var node := w.BaseNode(n, listing, body);
            && NodeFields(tasks, n, node)
            && (node.taskRef.Some? <==> n in listing)
            && (node.reason.Some? <==> n !in listing && n in body.tasks && body.tasks[n].phase == Skipped)
  {
    if n !in listing && n in body.tasks && body.tasks[n].phase == Skipped {
      assert NodeFields(tasks, n, body.tasks[n]);
      DoomedHasNoTask(w, tasks, n);
    }
  }

  lemma WriteKeepsFields(w: Workflow, tasks: Tasks, current: Status, listing: Tasks, body: Status)
    requires w.Valid() && Sound(w, tasks) && Evolves(listing, tasks)
    requires StatusSound(w, tasks, body) && StatusFields(tasks, body) && StatusFields(tasks, current)
    ensures StatusFields(tasks, Write(current, PatchTo(body, w.Desired(listing, body))))
  {
    var desired := w.Desired(listing, body);
    var written := Write(current, PatchTo(body, desired));
    w.NodeKeys(listing, body);
    forall n | n in desired.tasks ensures NodeFields(tasks, n, desired.tasks[n]) {
      assert n in Elements(Names(w.tasks));
      DesiredFields(w, tasks, listing, body, n);
    }
    forall n | n in written.tasks ensures NodeFields(tasks, n, written.tasks[n]) {
      WrittenNode(tasks, current, body, desired, n);
    }
  }

  lemma WrittenNode(tasks: Tasks, current: Status, body: Status, desired: Status, n: Name)
    requires desired.phase.Some? && desired.taskCount.Some? && n in Write(current, PatchTo(body, desired)).tasks
    requires n in current.tasks ==> NodeFields(tasks, n, current.tasks[n])
    requires n in desired.tasks ==> NodeFields(tasks, n, desired.tasks[n])
    ensures NodeFields(tasks, n, Write(current, PatchTo(body, desired)).tasks[n])
  {
  }

  lemma EvolutionKeepsFields(before: Tasks, after: Tasks, status: Status)
    requires Evolves(before, after) && StatusFields(before, status)
    ensures StatusFields(after, status)
  {
    forall n | n in status.tasks ensures NodeFields(after, n, status.tasks[n]) {
      assert NodeFields(before, n, status.tasks[n]);
    }
  }

  /** All statuses seen so far, one more, and Tasks that have evolved. */
  lemma MoreStatuses(s: State, next: State)
    requires forall b {:trigger StatusFields(s.tasks, b)} | b in s.seenStatuses :: StatusFields(s.tasks, b)
    requires Evolves(s.tasks, next.tasks) && next.seenStatuses <= s.seenStatuses + {next.status}
    requires StatusFields(s.tasks, next.status)
    ensures forall b {:trigger StatusFields(next.tasks, b)} | b in next.seenStatuses :: StatusFields(next.tasks, b)
  {
    forall b | b in next.seenStatuses ensures StatusFields(next.tasks, b) {
      EvolutionKeepsFields(s.tasks, next.tasks, b);
    }
  }

  lemma StepKeepsFields(w: Workflow, s: State, a: Action)
    requires w.Valid() && FieldsInvariant(w, s) && Enabled(w, s, a)
    ensures FieldsInvariant(w, Next(w, s, a))
  {
    StepKeepsInvariant(w, s, a);
    assert StatusFields(s.tasks, s.status);
    if a.WriteStatus? {
      assert StatusFields(s.tasks, a.body) && StatusSound(w, s.tasks, a.body);
      WriteKeepsFields(w, s.tasks, s.status, a.listing, a.body);
    }
    MoreStatuses(s, Next(w, s, a));
  }

  lemma {:induction false} RunKeepsFields(w: Workflow, s: State, run: seq<Action>)
    requires w.Valid() && FieldsInvariant(w, s) && IsRun(w, s, run)
    ensures FieldsInvariant(w, After(w, s, run))
    decreases |run|
  {
    if run != [] {
      StepKeepsFields(w, s, run[0]);
      RunKeepsFields(w, Next(w, s, run[0]), run[1..]);
    }
  }

  // ---------- Exactly when a write is exact ----------

  /** The reconciliation has listed the Task that the node refers to, and skips the task that the
      node gives a reason for. */
  ghost predicate KnowsNode(w: Workflow, listing: Tasks, body: Status, n: Name, node: NodeStatus) {
    (node.taskRef.Some? ==> n in listing) && (node.reason.Some? ==> IsSkipped(w, listing, body, n))
  }

  /** What a reconciliation must know so that its write leaves nothing behind: when the body already
      is what it wants, the status must be so too; else it must know every node of the status. */
  ghost predicate UpToDate(w: Workflow, status: Status, listing: Tasks, body: Status) {
    if body == w.Desired(listing, body) then status == body
    else forall n {:trigger KnowsNode(w, listing, body, n, status.tasks[n])} | n in status.tasks ::
      KnowsNode(w, listing, body, n, status.tasks[n])
  }

  /** Overwriting the node leaves nothing behind exactly when the reconciliation knows it. */
  ghost predicate NodeAgrees(w: Workflow, status: Status, listing: Tasks, body: Status, n: Name) {
    n in status.tasks ==>
      && n in w.Desired(listing, body).tasks
      && (Overwrites(w.Desired(listing, body).tasks[n], status.tasks[n]) <==>
            KnowsNode(w, listing, body, n, status.tasks[n]))
  }

  lemma NothingLeftIff(w: Workflow, s: State, listing: Tasks, body: Status, n: Name)
    requires w.Valid() && FieldsInvariant(w, s) && listing in s.seenTasks && body in s.seenStatuses
    ensures NodeAgrees(w, s.status, listing, body, n)
  {
    if n in s.status.tasks {
      assert StatusSound(w, s.tasks, body) && StatusSound(w, s.tasks, s.status);
      assert StatusFields(s.tasks, body) && StatusFields(s.tasks, s.status);
      assert n in Elements(Names(w.tasks)) && NodeFields(s.tasks, n, s.status.tasks[n]);
      DesiredFields(w, s.tasks, listing, body, n);
    }
  }

  lemma FitsIff(w: Workflow, status: Status, listing: Tasks, body: Status)
    requires forall n {:trigger NodeAgrees(w, status, listing, body, n)} :: NodeAgrees(w, status, listing, body, n)
    ensures Write(status, PatchTo(body, w.Desired(listing, body))) == w.Desired(listing, body)
       <==> UpToDate(w, status, listing, body)
  {
    PatchIsExact(status, body, w.Desired(listing, body));
    forall n | n in status.tasks
      ensures n in w.Desired(listing, body).tasks
      ensures Overwrites(w.Desired(listing, body).tasks[n], status.tasks[n]) <==>
                KnowsNode(w, listing, body, n, status.tasks[n])
    {
      assert NodeAgrees(w, status, listing, body, n);
    }
  }

  /** In every reachable state, for every listing and body that some reconciliation may have read:
      its status write leaves exactly the status that it wants, if and only if it is up to date. */
  lemma OverlappingWriteIsExactIff(w: Workflow, run: seq<Action>, listing: Tasks, body: Status)
    requires w.Valid() && IsRun(w, Initial(), run)
    requires listing in After(w, Initial(), run).seenTasks && body in After(w, Initial(), run).seenStatuses
    ensures var s := After(w, Initial(), run);
            Write(s.status, PatchTo(body, w.Desired(listing, body))) == w.Desired(listing, body)
            <==> UpToDate(w, s.status, listing, body)
  {
    InitialInvariant(w);
    RunKeepsFields(w, Initial(), run);
    var s := After(w, Initial(), run);
    forall n ensures NodeAgrees(w, s.status, listing, body, n) {
      NothingLeftIff(w, s, listing, body, n);
    }
    FitsIff(w, s.status, listing, body);
  }

  // ---------- A write that is not exact ----------

  /** A workflow of one task without dependencies. */
  function Single(prompt: string): Workflow {
    Workflow("w", [TaskSpec("a", prompt, [], [])])
  }

  lemma SingleGraph(prompt: string)
    ensures Names(Single(prompt).tasks) == ["a"]
    ensures ByName(Single(prompt).tasks) == map["a" := Single(prompt).tasks[0]]
    ensures GraphOf(Single(prompt).tasks).dependencies == map["a" := []]
  {
    assert Single(prompt).tasks[..0] == [];
  }

  lemma SingleIsValid(prompt: string)
    ensures Single(prompt).Valid()
  {
    var graph := GraphOf(Single(prompt).tasks);
    SingleGraph(prompt);
    forall p ensures !graph.IsCycle(p) {
      if |p| >= 2 {
        assert !graph.DependsOn(p[0], p[1]);
      }
    }
    assert Elements(Names(Single(prompt).tasks)) == {"a"};
  }

  lemma SingleNode(prompt: string, listing: Tasks, body: Status)
    ensures Single(prompt).Desired(listing, body).tasks.Keys == {"a"}
    ensures Single(prompt).Desired(listing, body).tasks["a"] == Single(prompt).BaseNode("a", listing, body)
  {
    var w := Single(prompt);
    SingleGraph(prompt);
    w.NodeKeys(listing, body);
    if "a" in w.Skips(listing, body) {
      var d := GraphOf(w.tasks).BlockedThrough(w.Observed(listing, body), "a");
    }
    w.NodeOf(listing, body, "a");
  }

  lemma SingleReady(prompt: string, body: Status)
    requires body.tasks == map[]
    ensures "a" in Single(prompt).ReadyList(map[], body) && Single(prompt).HasResults("a", map[])
  {
    var w := Single(prompt);
    SingleGraph(prompt);
    if "a" in w.Skips(map[], body) {
      var d := GraphOf(w.tasks).BlockedThrough(w.Observed(map[], body), "a");
    }
    var ready := GraphOf(w.tasks).Ready(w.Effective(map[], body));
    assert "a" in ready;
    KeepElements(Names(w.tasks), ready);
    assert "a" in Elements(w.ReadyList(map[], body));
  }

  /** Fidelity needs serialized reconciliations: when two of them overlap, the slower one
      wants a bare Pending node and leaves the reference of the faster one behind. */
  lemma OverlappingWritesLeaveFields(prompt: string) returns (run: seq<Action>, listing: Tasks, body: Status)
    ensures Single(prompt).Valid() && IsRun(Single(prompt), Initial(), run)
    ensures var s := After(Single(prompt), Initial(), run);
      && listing in s.seenTasks && body in s.seenStatuses
      && Write(s.status, PatchTo(body, Single(prompt).Desired(listing, body)))
         != Single(prompt).Desired(listing, body)
  {
    var w, s0 := Single(prompt), Initial();
    SingleIsValid(prompt);
    listing, body := map[], s0.status;
    SingleReady(prompt, body);
    var create := CreateTask(listing, body, "a");
    RunThen(w, s0, [], create);
    var s1 := Next(w, s0, create);
    var write := WriteStatus(s1.tasks, body);
    run := [] + [create];
    RunThen(w, s0, run, write);
    var s2 := Next(w, s1, write);
    run := run + [write];
    SingleNode(prompt, s1.tasks, body);
    SingleNode(prompt, listing, body);
    assert s2.status.tasks["a"].taskRef.Some?;
    LeftoverReference(s2.status, body, w.Desired(listing, body), "a");
  }

  lemma LeftoverReference(current: Status, body: Status, desired: Status, n: Name)
    requires n in current.tasks && n in desired.tasks && n !in body.tasks
    requires current.tasks[n].taskRef.Some? && desired.tasks[n].taskRef.None?
    requires desired.phase.Some? && desired.taskCount.Some?
    ensures Write(current, PatchTo(body, desired)) != desired
  {
    assert n in Write(current, PatchTo(body, desired)).tasks;
  }
}
