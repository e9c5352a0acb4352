/** Every run of the workflow controller: any number of reconciliations in any interleaving,
    acting on Task listings and Workflow bodies that may be arbitrarily stale, while the
    Tasks execute. A reconciliation reads a listing and a body and then performs some of its
    writes, later and in between the writes of others; so each write is a step of its own,
    and a step may use any listing and body that were ever current. Crashes (writes that
    never happen) and redeliveries (writes that happen twice) are runs of this kind. */
module WorkflowRuns {
  import opened Wrappers
  import opened Sequences
  import opened WorkflowGraph
  import opened WorkflowReconcile

  type Tasks = map<Name, Task>

  datatype State = State(
    tasks: Tasks,
    status: Status,
    seenTasks: set<Tasks>,       // every Task listing that was ever current
    seenStatuses: set<Status>,   // every Workflow status that was ever current
    created: seq<Name>,          // the successful creations, in order
    skipped: set<Name>)          // every task that a reconciliation ever decided to skip

  datatype Action =
    | CreateTask(listing: Tasks, body: Status, name: Name)
    | WriteStatus(listing: Tasks, body: Status)
    | TaskMoves(name: Name, after: Task)

  function Initial(): State {
    var status := Status(None, None, map[]);
    State(map[], status, {map[]}, {status}, [], {})
  }

  /** What the Task handler may do to a Task; TaskExecution proves that it does no more. */
  predicate Moves(before: Task, after: Task) {
    && after.prompt == before.prompt
    && (after.result.Some? <==> after.phase == Succeeded)
    && match before.phase
       case Pending => after.phase == Running || after.phase == Failed
       case Running => after.phase == Succeeded || after.phase == Failed || after.phase == TimedOut
       case _ => false
  }

  ghost predicate Enabled(w: Workflow, s: State, a: Action) {
    match a
    case CreateTask(listing, body, n) =>
      && listing in s.seenTasks && body in s.seenStatuses
      && n in w.ReadyList(listing, body) && w.HasResults(n, listing)
    case WriteStatus(listing, body) =>
      listing in s.seenTasks && body in s.seenStatuses
    case TaskMoves(n, after) =>
      n in s.tasks && Moves(s.tasks[n], after)
  }

  ghost function Next(w: Workflow, s: State, a: Action): State
    requires Enabled(w, s, a)
  {
    match a
    case CreateTask(listing, body, n) =>
      if n in s.tasks then s.(skipped := s.skipped + w.Skips(listing, body))
      else
        var tasks := s.tasks[n := w.NewTask(n, listing)];
        s.(tasks := tasks, seenTasks := s.seenTasks + {tasks}, created := s.created + [n],
           skipped := s.skipped + w.Skips(listing, body))
    case WriteStatus(listing, body) =>
      Written(s, Write(s.status, PatchTo(body, w.Desired(listing, body)))).(
        skipped := s.skipped + w.Skips(listing, body))
    case TaskMoves(n, after) =>
      var tasks := s.tasks[n := after];
      s.(tasks := tasks, seenTasks := s.seenTasks + {tasks})
  }

  ghost predicate IsRun(w: Workflow, s: State, run: seq<Action>)
    decreases |run|
  {
    run == [] || (Enabled(w, s, run[0]) && IsRun(w, Next(w, s, run[0]), run[1..]))
  }

  ghost function After(w: Workflow, s: State, run: seq<Action>): State
    requires IsRun(w, s, run)
    decreases |run|
  {
    if run == [] then s else After(w, Next(w, s, run[0]), run[1..])
  }

  // ---------- Extending runs ----------

  lemma RunOfOne(w: Workflow, s: State, a: Action)
    requires Enabled(w, s, a)
    ensures IsRun(w, s, [a]) && After(w, s, [a]) == Next(w, s, a)
  {
    assert [a][1..] == [];
  }

  lemma {:induction false} RunThen(w: Workflow, s: State, run: seq<Action>, a: Action)
    requires IsRun(w, s, run) && Enabled(w, After(w, s, run), a)
    ensures IsRun(w, s, run + [a]) && After(w, s, run + [a]) == Next(w, After(w, s, run), a)
    decreases |run|
  {
    if run == [] {
      RunOfOne(w, s, a);
      assert run + [a] == [a];
    } else {
      RunThen(w, Next(w, s, run[0]), run[1..], a);
      assert (run + [a])[0] == run[0] && (run + [a])[1..] == run[1..] + [a];
    }
  }

  // ---------- Doomed tasks ----------

  predicate HasFailed(phase: Phase) {
    phase == Failed || phase == TimedOut
  }

  ghost predicate DoomPath(w: Workflow, tasks: Tasks, p: seq<Name>) {
    && |p| >= 2 && GraphOf(w.tasks).IsPath(p)
    && p[|p| - 1] in tasks && HasFailed(tasks[p[|p| - 1]].phase)
  }

  /** The task depends, directly or not, on a Task that failed. */
  ghost predicate Doomed(w: Workflow, tasks: Tasks, n: Name) {
    exists p :: DoomPath(w, tasks, p) && p[0] == n
  }

  /** What the history of a Task in the cluster tells about its dependencies. */
  ghost predicate SoundTask(w: Workflow, tasks: Tasks, n: Name)
    requires n in tasks
  {
    && n in GraphOf(w.tasks).dependencies
    && tasks[n].phase != Skipped
    && (tasks[n].phase == Succeeded ==> tasks[n].result.Some?)
    && (forall d | d in GraphOf(w.tasks).dependencies[n] :: d in tasks && tasks[d].phase == Succeeded)
    && w.HasResults(n, tasks) && tasks[n].prompt == w.Prompt(n, tasks)
  }

  ghost predicate Sound(w: Workflow, tasks: Tasks) {
    forall n {:trigger SoundTask(w, tasks, n)} | n in tasks :: SoundTask(w, tasks, n)
  }

  /** Time passes: Tasks stay, keep their prompt, and a finished Task no longer changes. */
  predicate Evolves(before: Tasks, after: Tasks) {
    forall n {:trigger after[n]} {:trigger before[n]} | n in before ::
      n in after && after[n].prompt == before[n].prompt && (Terminal(before[n].phase) ==> after[n] == before[n])
  }

  /** A status names declared tasks only, and says Skipped of doomed tasks only. */
  ghost predicate StatusSound(w: Workflow, tasks: Tasks, status: Status) {
    && status.tasks.Keys <= Elements(Names(w.tasks))
    && forall n {:trigger Doomed(w, tasks, n)} | n in status.tasks && status.tasks[n].phase == Skipped ::
         Doomed(w, tasks, n)
  }

  ghost predicate Invariant(w: Workflow, s: State) {
    && Sound(w, s.tasks)
    && s.tasks in s.seenTasks && (forall t | t in s.seenTasks :: Evolves(t, s.tasks))
    && s.status in s.seenStatuses
    && (forall b {:trigger StatusSound(w, s.tasks, b)} | b in s.seenStatuses :: StatusSound(w, s.tasks, b))
    && Distinct(s.created) && Elements(s.created) == s.tasks.Keys
    && (forall n {:trigger Doomed(w, s.tasks, n)} | n in s.skipped :: Doomed(w, s.tasks, n))
  }

  // ---------- Properties of one moment ----------

  /** Every task on a path from an existing Task has succeeded. */
  lemma {:induction false} AncestorsSucceeded(w: Workflow, tasks: Tasks, p: seq<Name>)
    requires Sound(w, tasks) && GraphOf(w.tasks).IsPath(p) && |p| >= 2 && p[0] in tasks
    ensures p[|p| - 1] in tasks && tasks[p[|p| - 1]].phase == Succeeded
    decreases |p|
  {
    assert SoundTask(w, tasks, p[0]);
    assert GraphOf(w.tasks).DependsOn(p[0], p[1]);
    if |p| > 2 {
      var rest := p[1..];
      forall i | 0 <= i < |rest| - 1 ensures GraphOf(w.tasks).DependsOn(rest[i], rest[i + 1]) {
        assert GraphOf(w.tasks).DependsOn(p[i + 1], p[i + 2]);
      }
      AncestorsSucceeded(w, tasks, rest);
    }
  }

  /** A doomed task has no Task. */
  lemma DoomedHasNoTask(w: Workflow, tasks: Tasks, n: Name)
    requires Sound(w, tasks) && Doomed(w, tasks, n)
    ensures n !in tasks
  {
    var p :| DoomPath(w, tasks, p) && p[0] == n;
    if n in tasks {
      AncestorsSucceeded(w, tasks, p);
    }
  }

  lemma DoomedPersists(w: Workflow, before: Tasks, after: Tasks, n: Name)
    requires Evolves(before, after) && Doomed(w, before, n)
    ensures Doomed(w, after, n)
  {
    var p :| DoomPath(w, before, p) && p[0] == n;
    assert DoomPath(w, after, p);
  }

  lemma DependentIsDoomed(w: Workflow, tasks: Tasks, n: Name, d: Name)
    requires GraphOf(w.tasks).DependsOn(n, d)
    requires Doomed(w, tasks, d) || (d in tasks && HasFailed(tasks[d].phase))
    ensures Doomed(w, tasks, n)
  {
    if d in tasks && HasFailed(tasks[d].phase) {
      assert DoomPath(w, tasks, [n, d]);
    } else {
      var p :| DoomPath(w, tasks, p) && p[0] == d;
      var longer := [n] + p;
      forall i | 0 <= i < |longer| - 1 ensures GraphOf(w.tasks).DependsOn(longer[i], longer[i + 1]) {
        if i > 0 {
          assert GraphOf(w.tasks).DependsOn(p[i - 1], p[i]);
        }
      }
      assert DoomPath(w, tasks, longer);
    }
  }

  /** A skip is decided, however stale the reads, for a doomed task only. */
  lemma {:induction false} BlockedIsDoomed(w: Workflow, tasks: Tasks, listing: Tasks, body: Status, p: seq<Name>)
    requires Sound(w, tasks) && Evolves(listing, tasks) && StatusSound(w, tasks, body)
    requires GraphOf(w.tasks).BlockingPath(w.Observed(listing, body), p)
    ensures Doomed(w, tasks, p[0])
    decreases |p|
  {
    var d := p[1];
    assert GraphOf(w.tasks).DependsOn(p[0], p[1]);
    if |p| > 2 {
      var rest := p[1..];
      forall i | 0 <= i < |rest| - 1
        ensures GraphOf(w.tasks).DependsOn(rest[i], rest[i + 1]) && rest[i] !in w.Observed(listing, body)
      {
        assert GraphOf(w.tasks).DependsOn(p[i + 1], p[i + 2]);
      }
      BlockedIsDoomed(w, tasks, listing, body, rest);
    } else if d in listing {
      assert tasks[d] == listing[d];
      assert SoundTask(w, tasks, d);
    }
    DependentIsDoomed(w, tasks, p[0], d);
  }

  lemma SkipsAreDoomed(w: Workflow, tasks: Tasks, listing: Tasks, body: Status, n: Name)
    requires Sound(w, tasks) && Evolves(listing, tasks) && StatusSound(w, tasks, body)
    requires n in w.Skips(listing, body)
    ensures Doomed(w, tasks, n)
  {
    var p :| GraphOf(w.tasks).BlockingPath(w.Observed(listing, body), p) && p[0] == n;
    BlockedIsDoomed(w, tasks, listing, body, p);
  }

  lemma ReadyDependencies(w: Workflow, listing: Tasks, body: Status, n: Name)
    requires n in w.ReadyList(listing, body)
    ensures n in GraphOf(w.tasks).dependencies && n in Names(w.tasks)
    ensures forall d | d in GraphOf(w.tasks).dependencies[n] :: d in listing && listing[d].phase == Succeeded
  {
    var phases := w.Effective(listing, body);
    KeepElements(Names(w.tasks), GraphOf(w.tasks).Ready(phases));
    assert n in Elements(w.ReadyList(listing, body));
    assert GraphOf(w.tasks).DependenciesSucceeded(n, phases);
    forall d | d in GraphOf(w.tasks).dependencies[n] ensures d in listing && listing[d].phase == Succeeded {
      assert phases[d] == Succeeded;
    }
  }

  /** A task that a reconciliation finds ready, however stale its reads, has only
      dependencies that succeeded, and its prompt is made of their final results. */
  lemma ReadyIsSound(w: Workflow, tasks: Tasks, listing: Tasks, body: Status, n: Name)
    requires w.Valid() && Evolves(listing, tasks)
    requires n in w.ReadyList(listing, body) && w.HasResults(n, listing)
    ensures n in GraphOf(w.tasks).dependencies
    ensures forall d | d in GraphOf(w.tasks).dependencies[n] :: d in tasks && tasks[d].phase == Succeeded
    ensures w.HasResults(n, tasks) && w.Prompt(n, tasks) == w.Prompt(n, listing)
  {
    ReadyDependencies(w, listing, body, n);
    assert forall d | d in GraphOf(w.tasks).dependencies[n] :: d in tasks && tasks[d] == listing[d];
    SameInputs(w, listing, tasks, n);
  }

  /** The prompt depends on the dependencies of a task only. */
  lemma SameInputs(w: Workflow, before: Tasks, after: Tasks, n: Name)
    requires WellFormed(w.tasks) && n in GraphOf(w.tasks).dependencies && w.HasResults(n, before)
    requires forall d | d in GraphOf(w.tasks).dependencies[n] :: d in before && d in after && before[d] == after[d]
    ensures w.HasResults(n, after) && w.Prompt(n, after) == w.Prompt(n, before)
  {
    ByNameKeys(w.tasks);
    Declared(w.tasks, n);
    assert w.Results(n, after) == w.Results(n, before);
  }

  // ---------- The invariant holds in every run ----------

  lemma EvolvesTransitive(a: Tasks, b: Tasks, c: Tasks)
    requires Evolves(a, b) && Evolves(b, c)
    ensures Evolves(a, c)
  {
    forall n | n in a
      ensures n in c && c[n].prompt == a[n].prompt && (Terminal(a[n].phase) ==> c[n] == a[n])
    {
      assert b[n].prompt == a[n].prompt;
    }
  }

  /** A sound Task stays sound while the others evolve and it keeps its prompt. */
  lemma SoundTaskFrame(w: Workflow, before: Tasks, after: Tasks, n: Name)
    requires w.Valid() && n in before && SoundTask(w, before, n) && Evolves(before, after) && n in after
    requires after[n].phase != Skipped && (after[n].phase == Succeeded ==> after[n].result.Some?)
    ensures SoundTask(w, after, n)
  {
    forall d | d in GraphOf(w.tasks).dependencies[n] ensures d in after && after[d] == before[d] {
      assert before[d].phase == Succeeded;
    }
    SameInputs(w, before, after, n);
  }

  lemma CreateKeepsSound(w: Workflow, tasks: Tasks, listing: Tasks, body: Status, n: Name)
    requires w.Valid() && Sound(w, tasks) && Evolves(listing, tasks) && n !in tasks
    requires n in w.ReadyList(listing, body) && w.HasResults(n, listing)
    ensures Sound(w, tasks[n := w.NewTask(n, listing)]) && Evolves(tasks, tasks[n := w.NewTask(n, listing)])
  {
    var after := tasks[n := w.NewTask(n, listing)];
    assert Evolves(tasks, after);
    forall m | m in after ensures SoundTask(w, after, m) {
      if m == n {
        ReadyIsSound(w, tasks, listing, body, n);
        NewTaskIsSound(w, tasks, after, n);
      } else {
        assert SoundTask(w, tasks, m);
        SoundTaskFrame(w, tasks, after, m);
      }
    }
  }

  lemma NewTaskIsSound(w: Workflow, tasks: Tasks, after: Tasks, n: Name)
    requires w.Valid() && n !in tasks && n in GraphOf(w.tasks).dependencies && w.HasResults(n, tasks)
    requires forall d | d in GraphOf(w.tasks).dependencies[n] :: d in tasks && tasks[d].phase == Succeeded
    requires after == tasks[n := Task(w.Prompt(n, tasks), Pending, None)]
    ensures SoundTask(w, after, n)
  {
    SameInputs(w, tasks, after, n);
  }

  lemma MoveKeepsSound(w: Workflow, tasks: Tasks, n: Name, moved: Task)
    requires w.Valid() && Sound(w, tasks) && n in tasks && Moves(tasks[n], moved)
    ensures Sound(w, tasks[n := moved]) && Evolves(tasks, tasks[n := moved])
  {
    var after := tasks[n := moved];
    assert Evolves(tasks, after);
    forall m | m in after ensures SoundTask(w, after, m) {
      assert SoundTask(w, tasks, m);
      SoundTaskFrame(w, tasks, after, m);
    }
  }

  /** Whatever a reconciliation reports as skipped is doomed. */
  lemma DesiredSkipIsDoomed(w: Workflow, tasks: Tasks, listing: Tasks, body: Status, n: Name)
    requires Sound(w, tasks) && Evolves(listing, tasks) && StatusSound(w, tasks, body)
    requires n in w.Nodes(listing, body) && w.Nodes(listing, body)[n].phase == Skipped && n in Names(w.tasks)
    ensures Doomed(w, tasks, n)
  {
    w.NodeOf(listing, body, n);
    if n in w.Skips(listing, body) {
      SkipsAreDoomed(w, tasks, listing, body, n);
    } else {
      assert n in tasks ==> SoundTask(w, tasks, n);
    }
  }

  lemma DesiredIsSound(w: Workflow, tasks: Tasks, listing: Tasks, body: Status)
    requires w.Valid() && Sound(w, tasks) && Evolves(listing, tasks) && StatusSound(w, tasks, body)
    ensures StatusSound(w, tasks, w.Desired(listing, body))
  {
    var nodes := w.Nodes(listing, body);
    w.NodeKeys(listing, body);
    forall n | n in nodes && nodes[n].phase == Skipped ensures Doomed(w, tasks, n) {
      assert n in Elements(Names(w.tasks));
      DesiredSkipIsDoomed(w, tasks, listing, body, n);
    }
  }

  lemma WriteKeepsStatusSound(w: Workflow, tasks: Tasks, current: Status, body: Status, desired: Status)
    requires StatusSound(w, tasks, current) && StatusSound(w, tasks, body) && StatusSound(w, tasks, desired)
    requires desired.phase.Some? && desired.taskCount.Some? && desired.tasks.Keys == Elements(Names(w.tasks))
    ensures StatusSound(w, tasks, Write(current, PatchTo(body, desired)))
  {}

  /** When the Tasks evolve, everything known about listings, bodies and skips stays true. */
  lemma EvolutionKeepsInvariant(w: Workflow, s: State, s': State)
    requires Invariant(w, s) && Evolves(s.tasks, s'.tasks) && Sound(w, s'.tasks)
    requires s'.seenTasks == s.seenTasks + {s'.tasks} && s'.status == s.status && s'.seenStatuses == s.seenStatuses
    requires Distinct(s'.created) && Elements(s'.created) == s'.tasks.Keys
    requires s'.skipped == s.skipped
    ensures Invariant(w, s')
  {
    forall t | t in s'.seenTasks ensures Evolves(t, s'.tasks) {
      if t != s'.tasks {
        EvolvesTransitive(t, s.tasks, s'.tasks);
      }
    }
    forall b | b in s'.seenStatuses ensures StatusSound(w, s'.tasks, b) {
      assert StatusSound(w, s.tasks, b);
      forall n | n in b.tasks && b.tasks[n].phase == Skipped ensures Doomed(w, s'.tasks, n) {
        DoomedPersists(w, s.tasks, s'.tasks, n);
      }
    }
    forall n | n in s'.skipped ensures Doomed(w, s'.tasks, n) {
      DoomedPersists(w, s.tasks, s'.tasks, n);
    }
  }

  lemma SkippingKeepsInvariant(w: Workflow, s: State, listing: Tasks, body: Status)
    requires w.Valid() && Invariant(w, s) && listing in s.seenTasks && body in s.seenStatuses
    ensures Invariant(w, s.(skipped := s.skipped + w.Skips(listing, body)))
  {
    assert StatusSound(w, s.tasks, body);
    forall n | n in w.Skips(listing, body) ensures Doomed(w, s.tasks, n) {
      SkipsAreDoomed(w, s.tasks, listing, body, n);
    }
  }

  function Written(s: State, status: Status): State {
    s.(status := status, seenStatuses := s.seenStatuses + {status})
  }

  lemma WritingKeepsInvariant(w: Workflow, s: State, listing: Tasks, body: Status)
    requires w.Valid() && Invariant(w, s) && listing in s.seenTasks && body in s.seenStatuses
    ensures Invariant(w, Written(s, Write(s.status, PatchTo(body, w.Desired(listing, body)))))
  {
    assert StatusSound(w, s.tasks, body) && StatusSound(w, s.tasks, s.status);
    DesiredIsSound(w, s.tasks, listing, body);
    w.NodeKeys(listing, body);
    WriteKeepsStatusSound(w, s.tasks, s.status, body, w.Desired(listing, body));
  }

  function Evolved(s: State, tasks: Tasks): State {
    s.(tasks := tasks, seenTasks := s.seenTasks + {tasks})
  }

  lemma CreatingKeepsInvariant(w: Workflow, s: State, listing: Tasks, body: Status, n: Name)
    requires w.Valid() && Invariant(w, s) && listing in s.seenTasks && body in s.seenStatuses
    requires n in w.ReadyList(listing, body) && w.HasResults(n, listing) && n !in s.tasks
    ensures Invariant(w, Evolved(s, s.tasks[n := w.NewTask(n, listing)]).(created := s.created + [n]))
    ensures Evolves(s.tasks, s.tasks[n := w.NewTask(n, listing)])
  {
    CreateKeepsSound(w, s.tasks, listing, body, n);
    ElementsAppend(s.created, n);
    EvolutionKeepsInvariant(w, s, Evolved(s, s.tasks[n := w.NewTask(n, listing)]).(created := s.created + [n]));
  }

  lemma MovingKeepsInvariant(w: Workflow, s: State, n: Name, after: Task)
    requires w.Valid() && Invariant(w, s) && n in s.tasks && Moves(s.tasks[n], after)
    ensures Invariant(w, Evolved(s, s.tasks[n := after])) && Evolves(s.tasks, s.tasks[n := after])
  {
    MoveKeepsSound(w, s.tasks, n, after);
    assert s.tasks[n := after].Keys == s.tasks.Keys;
    EvolutionKeepsInvariant(w, s, Evolved(s, s.tasks[n := after]));
  }

  lemma StepKeepsInvariant(w: Workflow, s: State, a: Action)
    requires w.Valid() && Invariant(w, s) && Enabled(w, s, a)
    ensures Invariant(w, Next(w, s, a)) && Evolves(s.tasks, Next(w, s, a).tasks)
    ensures s.skipped <= Next(w, s, a).skipped && s.seenStatuses <= Next(w, s, a).seenStatuses
  {
    match a
    case CreateTask(listing, body, n) =>
      if n in s.tasks {
        SkippingKeepsInvariant(w, s, listing, body);
      } else {
        CreatingKeepsInvariant(w, s, listing, body, n);
        SkippingKeepsInvariant(
          w, Evolved(s, s.tasks[n := w.NewTask(n, listing)]).(created := s.created + [n]), listing, body);
      }
    case WriteStatus(listing, body) =>
      WritingKeepsInvariant(w, s, listing, body);
      SkippingKeepsInvariant(
        w, Written(s, Write(s.status, PatchTo(body, w.Desired(listing, body)))), listing, body);
    case TaskMoves(n, after) =>
      MovingKeepsInvariant(w, s, n, after);
  }

  lemma InitialInvariant(w: Workflow)
    ensures Invariant(w, Initial())
  {}

  /** The invariant holds at the end of every run from a state where it holds. */
  lemma {:induction false} RunKeepsInvariant(w: Workflow, s: State, run: seq<Action>)
    requires w.Valid() && Invariant(w, s) && IsRun(w, s, run)
    ensures Invariant(w, After(w, s, run)) && Evolves(s.tasks, After(w, s, run).tasks)
    ensures s.skipped <= After(w, s, run).skipped && s.seenStatuses <= After(w, s, run).seenStatuses
    decreases |run|
  {
    if run != [] {
      var next := Next(w, s, run[0]);
      StepKeepsInvariant(w, s, run[0]);
      RunKeepsInvariant(w, next, run[1..]);
      EvolvesTransitive(s.tasks, next.tasks, After(w, s, run).tasks);
    }
  }

  /** The prompt holds the declared prompt and, after a heading, one part for each source, in order,
      which names the source and carries the result of that source's Task. */
  predicate CarriesResultsOf(prompt: string, spec: TaskSpec, tasks: Tasks, parts: seq<string>) {
    && |parts| == |spec.from|
    && (forall k | 0 <= k < |parts| ::
          && spec.from[k] in tasks && tasks[spec.from[k]].result.Some?
          && IsResultPart(parts[k], spec.from[k], tasks[spec.from[k]].result.value))
    && prompt == if spec.from == [] then spec.prompt
                 else spec.prompt + "\n\nPrevious task results:" + Flatten(parts)
  }

  lemma SkipNeverGetsTask(w: Workflow, s: State, s': State, listing: Tasks, body: Status, n: Name)
    requires w.Valid() && Invariant(w, s) && Invariant(w, s') && Evolves(s.tasks, s'.tasks)
    requires listing in s.seenTasks && body in s.seenStatuses && n in w.Skips(listing, body)
    ensures n !in s'.tasks
  {
    assert StatusSound(w, s.tasks, body);
    SkipsAreDoomed(w, s.tasks, listing, body, n);
    DoomedPersists(w, s.tasks, s'.tasks, n);
    DoomedHasNoTask(w, s'.tasks, n);
  }

  /** Whole-run safety. In every run, under any interleaving and however stale the reads:
      a Task is created at most once and never disappears; when it exists, all its
      dependencies have succeeded and its prompt carries exactly their results; and a task
      that was ever skipped never gets a Task, be it in the written status or in a decision that
      some reconciliation could take from a listing and a body read before, written or not. */
  lemma WholeRunSafety(w: Workflow, run: seq<Action>, later: seq<Action>)
    requires w.Valid() && IsRun(w, Initial(), run) && IsRun(w, After(w, Initial(), run), later)
    ensures var s, s' := After(w, Initial(), run), After(w, After(w, Initial(), run), later);
      && Distinct(s'.created) && Elements(s'.created) == s'.tasks.Keys
      && (forall n | n in s.tasks :: n in s'.tasks && s'.tasks[n].prompt == s.tasks[n].prompt)
      && (forall n | n in s'.tasks ::
            && n in ByName(w.tasks)
            && (forall d | d in ByName(w.tasks)[n].dependsOn :: d in s'.tasks && s'.tasks[d].phase == Succeeded)
            && exists parts :: CarriesResultsOf(s'.tasks[n].prompt, ByName(w.tasks)[n], s'.tasks, parts))
      && (forall n | n in s.skipped :: n !in s'.tasks)
      && (forall listing, body, n {:trigger n in w.Skips(listing, body)} |
            listing in s.seenTasks && body in s.seenStatuses && n in w.Skips(listing, body) :: n !in s'.tasks)
      && (forall n | n in s.status.tasks && s.status.tasks[n].phase == Skipped :: n !in s'.tasks)
  {
    InitialInvariant(w);
    RunKeepsInvariant(w, Initial(), run);
    var s := After(w, Initial(), run);
    RunKeepsInvariant(w, s, later);
    var s' := After(w, s, later);
    forall n | n in s'.tasks
      ensures SoundTask(w, s'.tasks, n)
      ensures exists parts :: CarriesResultsOf(s'.tasks[n].prompt, ByName(w.tasks)[n], s'.tasks, parts)
    {
      assert SoundTask(w, s'.tasks, n);
      var spec, results := ByName(w.tasks)[n], w.Results(n, s'.tasks);
      PromptCarriesResults(spec, results);
      var parts :| CarriesResults(PromptWithResults(spec, results), spec, results, parts);
      assert CarriesResultsOf(s'.tasks[n].prompt, ByName(w.tasks)[n], s'.tasks, parts);
    }
    forall n | n in s.skipped ensures n !in s'.tasks {
      DoomedHasNoTask(w, s'.tasks, n);
    }
    forall listing, body, n | listing in s.seenTasks && body in s.seenStatuses && n in w.Skips(listing, body)
      ensures n !in s'.tasks
    {
      SkipNeverGetsTask(w, s, s', listing, body, n);
    }
    forall n | n in s.status.tasks && s.status.tasks[n].phase == Skipped ensures n !in s'.tasks {
      assert StatusSound(w, s'.tasks, s.status);
      DoomedHasNoTask(w, s'.tasks, n);
    }
  }

  // ---------- What a reconciliation with a current listing sees ----------

  /** The phases that the cluster implies: those of the Tasks, and Skipped for doomed tasks. */
  ghost function TruePhases(w: Workflow, tasks: Tasks): map<Name, Phase> {
    map n | n in tasks.Keys + GraphOf(w.tasks).dependencies.Keys && (n in tasks || Doomed(w, tasks, n)) ::
      if n in tasks then tasks[n].phase else Skipped
  }

  lemma {:induction false} DoomedIsSkipped(w: Workflow, tasks: Tasks, body: Status, p: seq<Name>)
    requires Sound(w, tasks) && DoomPath(w, tasks, p)
    ensures p[0] in w.Effective(tasks, body) && w.Effective(tasks, body)[p[0]] == Skipped
    decreases |p|
  {
    var graph, observed, d := GraphOf(w.tasks), w.Observed(tasks, body), p[1];
    assert graph.DependsOn(p[0], p[1]);
    assert Doomed(w, tasks, p[0]);
    DoomedHasNoTask(w, tasks, p[0]);
    if |p| > 2 {
      var rest := p[1..];
      forall i | 0 <= i < |rest| - 1 ensures graph.DependsOn(rest[i], rest[i + 1]) {
        assert graph.DependsOn(p[i + 1], p[i + 2]);
      }
      DoomedIsSkipped(w, tasks, body, rest);
    }
    if p[0] !in observed {
      graph.BlocksDependent(observed, p[0], d);
    }
  }

  lemma PhaseAgrees(w: Workflow, tasks: Tasks, body: Status, n: Name)
    requires w.Valid() && Sound(w, tasks) && StatusSound(w, tasks, body)
    ensures n in w.Effective(tasks, body) <==> n in TruePhases(w, tasks)
    ensures n in TruePhases(w, tasks) ==> w.Effective(tasks, body)[n] == TruePhases(w, tasks)[n]
  {
    var observed, phases := w.Observed(tasks, body), w.Effective(tasks, body);
    if n in tasks {
      assert observed[n] == tasks[n].phase;
      if n in w.Skips(tasks, body) {
        GraphOf(w.tasks).BlockedIsUnscheduled(observed, n);
      }
    } else {
      if n in w.Skips(tasks, body) {
        SkipsAreDoomed(w, tasks, tasks, body, n);
      } else if n in observed {
        ByNameKeys(w.tasks);
        assert n in Elements(Names(w.tasks));
        assert Doomed(w, tasks, n);
      }
      if Doomed(w, tasks, n) {
        var p :| DoomPath(w, tasks, p) && p[0] == n;
        DoomedIsSkipped(w, tasks, body, p);
      }
    }
  }

  lemma SamePhases(a: map<Name, Phase>, b: map<Name, Phase>)
    requires forall n {:trigger n in a} {:trigger n in b} :: (n in a <==> n in b) && (n in b ==> a[n] == b[n])
    ensures a == b
  {}

  lemma EffectiveIsTrue(w: Workflow, tasks: Tasks, body: Status)
    requires w.Valid() && Sound(w, tasks) && StatusSound(w, tasks, body)
    ensures w.Effective(tasks, body) == TruePhases(w, tasks)
  {
    var effective, truth := w.Effective(tasks, body), TruePhases(w, tasks);
    forall n {:trigger n in effective} {:trigger n in truth}
      ensures (n in effective <==> n in truth) && (n in truth ==> effective[n] == truth[n])
    {
      PhaseAgrees(w, tasks, body, n);
    }
    SamePhases(effective, truth);
  }

  /** With a current listing, persisted skips are redundant: whatever body was read, the
      phases acted upon are those the cluster implies. */
  lemma StaleBodyIsHarmless(w: Workflow, s: State, body: Status)
    requires w.Valid() && Invariant(w, s) && body in s.seenStatuses
    ensures w.Effective(s.tasks, body) == TruePhases(w, s.tasks)
  {
    assert StatusSound(w, s.tasks, body);
    EffectiveIsTrue(w, s.tasks, body);
  }
}
