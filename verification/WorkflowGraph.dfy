/** The dependency graph of a workflow (operator/src/agent_operator/workflow_graph.py):
    validation, Kahn's topological order, ready tasks and skip propagation. */
module WorkflowGraph {
  import opened Wrappers
  import opened Sequences

  type Name = string

  datatype Phase = Pending | Running | Succeeded | Failed | TimedOut | Skipped

  /** One entry of a workflow's `spec.tasks`; `from` lists the tasks named by `input.from`. */
  datatype TaskSpec = TaskSpec(name: Name, prompt: string, dependsOn: seq<Name>, from: seq<Name>)

  datatype GraphError =
    | EmptyWorkflow
    | DuplicateTask(name: Name)
    | DuplicateDependencies(name: Name)
    | SelfDependency(name: Name)
    | UnknownDependency(name: Name, dependency: Name)
    | OwnResult(name: Name)
    | UnknownSource(name: Name, source: Name)
    | DuplicateSource(name: Name, source: Name)
    | SourceNotRequired(name: Name, source: Name)
    | DependencyCycle

  datatype Graph = Graph(names: seq<Name>, dependencies: map<Name, seq<Name>>) {
    predicate Valid() {
      && Distinct(names)
      && dependencies.Keys == Elements(names)
      && (forall n {:trigger Distinct(dependencies[n])} | n in names :: Distinct(dependencies[n]))
      && (forall n, d {:trigger d in dependencies[n]} | n in names && d in dependencies[n] :: d in names)
    }

    predicate DependsOn(n: Name, d: Name) {
      n in dependencies && d in dependencies[n]
    }

    /** A walk that follows dependencies: each task depends on the next one. */
    ghost predicate IsPath(p: seq<Name>) {
      forall i | 0 <= i < |p| - 1 :: DependsOn(p[i], p[i + 1])
    }

    ghost predicate IsCycle(p: seq<Name>) {
      |p| >= 2 && IsPath(p) && p[0] == p[|p| - 1]
    }

    ghost predicate Acyclic() {
      forall p :: !IsCycle(p)
    }

    /** Every task comes after all its dependencies. */
    ghost predicate DependenciesFirst(order: seq<Name>) {
      forall i, d | 0 <= i < |order| && DependsOn(order[i], d) :: d in order[..i]
    }

    ghost predicate IsTopologicalOrder(order: seq<Name>) {
      && Distinct(order)
      && Elements(order) == Elements(names)
      && DependenciesFirst(order)
    }

    /** The dependencies of `n` outside `done`: what Kahn's indegree counts. */
    ghost function Remaining(n: Name, done: set<Name>): set<Name>
      requires n in dependencies
    {
      Elements(dependencies[n]) - done
    }

    /** `done` leaves `n` nothing to wait for. */
    ghost predicate Free(n: Name, done: set<Name>) {
      n in dependencies && Remaining(n, done) == {}
    }

    function Dependents(d: Name): set<Name> {
      set n | n in dependencies && d in dependencies[n]
    }

    /** The reversed edges of the first `k` tasks. */
    ghost predicate Reversed(k: nat, dependents: map<Name, seq<Name>>)
      requires k <= |names|
    {
      && dependents.Keys == Elements(names)
      && forall d {:trigger dependents[d]} | d in dependents :: dependents[d] == Keep(names[..k], Dependents(d))
    }

    lemma ReversedStep(k: nat, before: map<Name, seq<Name>>, after: map<Name, seq<Name>>)
      requires Valid() && k < |names| && Reversed(k, before) && after.Keys == before.Keys
      requires forall d {:trigger after[d]} | d in after ::
                 after[d] == before[d] + if d in dependencies[names[k]] then [names[k]] else []
      ensures Reversed(k + 1, after)
    {
      forall d {:trigger after[d]} | d in after ensures after[d] == Keep(names[..k + 1], Dependents(d)) {
        assert before[d] == Keep(names[..k], Dependents(d));
        KeepPrefix(names, Dependents(d), k);
      }
    }

    /** The dependency counts of the first `k` tasks. */
    ghost predicate Counted(k: nat, indegree: map<Name, int>)
      requires k <= |names|
    {
      && indegree.Keys == dependencies.Keys
      && forall n {:trigger indegree[n]} | n in dependencies :: n in names[..k] ==> indegree[n] == |dependencies[n]|
    }

    lemma CountedStep(k: nat, indegree: map<Name, int>)
      requires Valid() && k < |names| && Counted(k, indegree)
      ensures names[k] in dependencies && Counted(k + 1, indegree[names[k] := |dependencies[names[k]]|])
    {
      assert names[k] in Elements(names);
      assert names[..k + 1] == names[..k] + [names[k]];
    }

    /** First pass of Kahn's algorithm: count dependencies and reverse the edges. */
    method CountDependencies() returns (indegree: map<Name, int>, dependents: map<Name, seq<Name>>)
      requires Valid()
      ensures Counted(|names|, indegree)
      ensures Reversed(|names|, dependents)
    {
      indegree := map n | n in names :: 0;
      dependents := map n | n in names :: [];
      for i := 0 to |names|
        invariant Counted(i, indegree)
        invariant Reversed(i, dependents)
      {
        var n := names[i];
        CountedStep(i, indegree);
        assert Distinct(dependencies[n]);
        indegree := indegree[n := |dependencies[n]|];
        ghost var before := dependents;
        dependents := AddDependent(n, dependencies[n], dependents);
        ReversedStep(i, before, dependents);
      }
    }

    /** Enter one task in the lists of the tasks it requires. */
    static method AddDependent(n: Name, required: seq<Name>, dependents0: map<Name, seq<Name>>)
      returns (dependents: map<Name, seq<Name>>)
      requires Distinct(required) && forall d | d in required :: d in dependents0
      ensures dependents.Keys == dependents0.Keys
      ensures forall d {:trigger dependents[d]} | d in dependents ::
                dependents[d] == dependents0[d] + if d in required then [n] else []
    {
      dependents := dependents0;
      for k := 0 to |required|
        invariant dependents.Keys == dependents0.Keys
        invariant forall d {:trigger dependents[d]} | d in dependents ::
            dependents[d] == dependents0[d] + if d in required[..k] then [n] else []
      {
        var d := required[k];
        DistinctPrefix(required, k);
        assert required[..k + 1] == required[..k] + [d];
        dependents := dependents[d := dependents[d] + [n]];
      }
      assert required[..|required|] == required;
    }

    /** What holds whenever Kahn's algorithm looks at its queue. */
    ghost predicate KahnInvariant(indegree: map<Name, int>, ordered: seq<Name>, ready: seq<Name>) {
      && indegree.Keys == dependencies.Keys
      && Distinct(ordered) && Distinct(ready) && Elements(ordered) !! Elements(ready)
      && DependenciesFirst(ordered)
      && (forall n {:trigger Free(n, Elements(ordered))} ::
            Free(n, Elements(ordered)) <==> n in Elements(ordered) || n in Elements(ready))
      && forall n {:trigger indegree[n]} | n in indegree :: indegree[n] == |Remaining(n, Elements(ordered))|
    }

    /** The inner loop of Kahn's algorithm: release the dependents of the emitted task. */
    static method Release(dependents: seq<Name>, indegree0: map<Name, int>, ready0: seq<Name>)
      returns (indegree: map<Name, int>, ready: seq<Name>)
      requires Distinct(dependents)
      requires forall n | n in dependents :: n in indegree0
      ensures indegree.Keys == indegree0.Keys
      ensures forall n {:trigger indegree[n]} | n in indegree ::
                indegree[n] == indegree0[n] - if n in dependents then 1 else 0
      ensures ready == ready0 + Keep(dependents, set n | n in indegree0 && indegree0[n] == 1)
    {
      indegree, ready := indegree0, ready0;
      ghost var last := set n | n in indegree0 && indegree0[n] == 1;
      for k := 0 to |dependents|
        invariant indegree.Keys == indegree0.Keys
        invariant forall n {:trigger indegree[n]} | n in indegree ::
            indegree[n] == indegree0[n] - if n in dependents[..k] then 1 else 0
        invariant ready == ready0 + Keep(dependents[..k], last)
      {
        var n := dependents[k];
        DistinctPrefix(dependents, k);
        KeepPrefix(dependents, last, k);
        assert dependents[..k + 1] == dependents[..k] + [n];
        indegree := indegree[n := indegree[n] - 1];
        if indegree[n] == 0 {
          ready := ready + [n];
        }
      }
      assert dependents[..|dependents|] == dependents;
    }

    /** Emitting a task and releasing its dependents keeps the invariant. */
    lemma EmitKeepsInvariant(task: Name, indegree0: map<Name, int>, ordered: seq<Name>, rest: seq<Name>,
                             indegree: map<Name, int>, ready: seq<Name>)
      requires Valid() && KahnInvariant(indegree0, ordered, [task] + rest)
      requires indegree.Keys == indegree0.Keys
      requires forall n {:trigger indegree[n]} | n in indegree ::
                 indegree[n] == indegree0[n] - if n in Keep(names, Dependents(task)) then 1 else 0
      requires ready == rest + Keep(Keep(names, Dependents(task)), set n | n in indegree0 && indegree0[n] == 1)
      ensures KahnInvariant(indegree, ordered + [task], ready)
    {
      var done := Elements(ordered);
      QueueHead(task, rest);
      ElementsAppend(ordered, task);
      assert Free(task, done);
      EmitKeepsOrder(ordered, task);
      assert task !in done;
      DependentsWait(task, indegree0, ordered, rest);
      var last := set n | n in indegree0 && indegree0[n] == 1;
      ReleasedQueue(task, rest, ready, last);
      forall n {:trigger n in Elements(ready)} | n in Elements(ready) ensures n !in done + {task} {
        assert n in Dependents(task) ==> !Free(n, done);
      }
      forall n {:trigger indegree[n]} | n in indegree ensures indegree[n] == |Remaining(n, done + {task})| {
        KeptDependents(task, n);
        EmitCount(done, task, n);
      }
      forall n {:trigger Free(n, done + {task})}
        ensures Free(n, done + {task}) <==> n in done + {task} || n in Elements(ready)
      {
        assert Free(n, done) <==> n in done || n == task || n in Elements(rest);
        EmitCount(done, task, n);
      }
    }

    static lemma QueueHead(task: Name, rest: seq<Name>)
      requires Distinct([task] + rest)
      ensures Elements([task] + rest) == {task} + Elements(rest)
      ensures Distinct(rest) && task !in rest
    {
      assert Elements([task] + rest) == {task} + Elements(rest);
      ElementsSize(rest);
    }

    lemma DependentsWait(task: Name, indegree: map<Name, int>, ordered: seq<Name>, rest: seq<Name>)
      requires Valid() && KahnInvariant(indegree, ordered, [task] + rest)
      ensures forall n {:trigger Free(n, Elements(ordered))} | n in Dependents(task) :: !Free(n, Elements(ordered))
      ensures Dependents(task) !! Elements(rest)
    {
      QueueHead(task, rest);
      forall n | n in Dependents(task) ensures !Free(n, Elements(ordered)) && n !in Elements(rest) {
        assert task in Remaining(n, Elements(ordered));
        assert !Free(n, Elements(ordered));
      }
    }

    /** The queue after a round: what was waiting in it, then the dependents on their last dependency. */
    lemma ReleasedQueue(task: Name, rest: seq<Name>, ready: seq<Name>, last: set<Name>)
      requires Distinct(names) && dependencies.Keys == Elements(names)
      requires Distinct(rest) && Dependents(task) !! Elements(rest)
      requires ready == rest + Keep(Keep(names, Dependents(task)), last)
      ensures Distinct(ready)
      ensures forall n {:trigger n in Elements(ready)} ::
                n in Elements(ready) <==> n in Elements(rest) || (n in Dependents(task) && n in last)
    {
      var released := Keep(names, Dependents(task));
      KeepDistinct(names, Dependents(task));
      KeepElements(names, Dependents(task));
      KeepDistinct(released, last);
      KeepElements(released, last);
      ElementsConcat(rest, Keep(released, last));
      DistinctConcat(rest, Keep(released, last));
    }

    lemma EmitKeepsOrder(ordered: seq<Name>, task: Name)
      requires DependenciesFirst(ordered) && Free(task, Elements(ordered))
      ensures DependenciesFirst(ordered + [task])
    {
      var longer := ordered + [task];
      forall i, d | 0 <= i < |longer| && DependsOn(longer[i], d) ensures d in longer[..i] {
        assert longer[..i] == ordered[..i];
        if i == |ordered| {
          assert longer[..i] == ordered;
          assert d !in Remaining(task, Elements(ordered));
        }
      }
    }

    /** Emitting a task takes one from the count of its dependents and nothing from the others. */
    lemma EmitCount(done: set<Name>, task: Name, n: Name)
      requires Valid() && task !in done
      ensures n in dependencies && n in Dependents(task) ==>
                && !Free(n, done)
                && |Remaining(n, done)| == |Remaining(n, done + {task})| + 1
                && (Free(n, done + {task}) <==> |Remaining(n, done)| == 1)
      ensures n in dependencies && n !in Dependents(task) ==>
                Remaining(n, done) == Remaining(n, done + {task})
    {
      if n in dependencies && n in Dependents(task) {
        assert Remaining(n, done) == Remaining(n, done + {task}) + {task};
      } else if n in dependencies {
        assert task !in dependencies[n];
      }
    }

    lemma CanRelease(indegree: map<Name, int>, dependents: map<Name, seq<Name>>, ordered: seq<Name>,
                     task: Name, rest: seq<Name>)
      requires Valid() && KahnInvariant(indegree, ordered, [task] + rest) && Reversed(|names|, dependents)
      ensures |ordered| < |names| && task in dependents && dependents[task] == Keep(names, Dependents(task))
      ensures Distinct(dependents[task]) && forall n | n in dependents[task] :: n in indegree
    {
      NextTask(indegree, ordered, task, rest);
      assert names[..|names|] == names;
      assert dependents[task] == Keep(names, Dependents(task));
      KeepDistinct(names, Dependents(task));
      forall n | n in dependents[task] ensures n in indegree { KeptDependents(task, n); }
    }

    /** One turn of Kahn's algorithm: emit the first task of the queue and release its dependents. */
    method Emit(indegree0: map<Name, int>, dependents: map<Name, seq<Name>>, ghost ordered: seq<Name>,
                ready0: seq<Name>)
      returns (task: Name, indegree: map<Name, int>, ready: seq<Name>)
      requires Valid() && ready0 != [] && KahnInvariant(indegree0, ordered, ready0) && Reversed(|names|, dependents)
      ensures KahnInvariant(indegree, ordered + [task], ready) && |ordered| < |names|
    {
      task := ready0[0];
      var rest := ready0[1..];
      assert ready0 == [task] + rest;
      CanRelease(indegree0, dependents, ordered, task, rest);
      indegree, ready := Release(dependents[task], indegree0, rest);
      EmitKeepsInvariant(task, indegree0, ordered, rest, indegree, ready);
    }

    /** Kahn's algorithm: it orders all tasks, or the dependencies have a cycle. */
    method TopologicalOrder() returns (r: Result<seq<Name>, GraphError>)
      requires Valid()
      ensures r.Success? <==> Acyclic()
      ensures r.Success? ==> IsTopologicalOrder(r.value)
      ensures r.Failure? ==> r.error == DependencyCycle
    {
      var indegree, dependents := CountDependencies();
      var ready := Sources(indegree);
      SourcesStart(indegree, ready);
      var ordered: seq<Name> := [];
      while ready != []
        invariant KahnInvariant(indegree, ordered, ready)
        decreases |names| - |ordered|
      {
        var task;
        task, indegree, ready := Emit(indegree, dependents, ordered, ready);
        ordered := ordered + [task];
      }
      Exhausted(indegree, ordered);
      return if |ordered| != |names| then Failure(DependencyCycle) else Success(ordered);
    }

    lemma NextTask(indegree: map<Name, int>, ordered: seq<Name>, task: Name, rest: seq<Name>)
      requires Valid() && KahnInvariant(indegree, ordered, [task] + rest)
      ensures task in Elements(names) && |ordered| < |names|
    {
      var done := Elements(ordered);
      QueueHead(task, rest);
      assert Free(task, done) && task !in done;
      forall n | n in done ensures n in Elements(names) { assert Free(n, done); }
      SubsetSize(done + {task}, Elements(names));
    }

    lemma KeptDependents(task: Name, n: Name)
      requires Valid()
      ensures n in Keep(names, Dependents(task)) <==> n in Dependents(task)
    {
      KeepElements(names, Dependents(task));
      assert n in Keep(names, Dependents(task)) <==> n in Elements(Keep(names, Dependents(task)));
    }

    /** When the queue is empty, either every task was emitted or a cycle remains. */
    lemma Exhausted(indegree: map<Name, int>, ordered: seq<Name>)
      requires Valid() && KahnInvariant(indegree, ordered, [])
      ensures |ordered| == |names| <==> Acyclic()
      ensures |ordered| == |names| ==> IsTopologicalOrder(ordered)
    {
      var done := Elements(ordered);
      forall n | n in done ensures n in Elements(names) { assert Free(n, done); }
      SubsetSize(done, Elements(names));
      if |ordered| == |names| {
        OrderMeansAcyclic(ordered);
      } else {
        var stuck := Elements(names) - done;
        forall n | n in stuck ensures WaitsWithin(n, stuck) {
          assert !Free(n, done);
          var d :| d in Remaining(n, done);
          assert DependsOn(n, d);
        }
        StuckMeansCycle(stuck);
      }
    }

    /** The tasks without dependencies, in declaration order, start the queue. */
    method Sources(indegree: map<Name, int>) returns (ready: seq<Name>)
      requires Valid() && indegree.Keys == dependencies.Keys
      ensures ready == Keep(names, set n | n in indegree && indegree[n] == 0)
    {
      ghost var free := set n | n in indegree && indegree[n] == 0;
      ready := [];
      for i := 0 to |names|
        invariant ready == Keep(names[..i], free)
      {
        KeepPrefix(names, free, i);
        if indegree[names[i]] == 0 {
          ready := ready + [names[i]];
        }
      }
      assert names[..|names|] == names;
    }

    lemma SourcesStart(indegree: map<Name, int>, ready: seq<Name>)
      requires Valid() && indegree.Keys == dependencies.Keys
      requires Counted(|names|, indegree)
      requires ready == Keep(names, set n | n in indegree && indegree[n] == 0)
      ensures KahnInvariant(indegree, [], ready)
    {
      var free := set n | n in indegree && indegree[n] == 0;
      assert names[..|names|] == names;
      KeepDistinct(names, free);
      KeepElements(names, free);
      forall n {:trigger indegree[n]} | n in indegree ensures indegree[n] == |Remaining(n, {})| {
        SourceCount(n);
      }
      forall n {:trigger Free(n, {})} ensures Free(n, {}) <==> n in Elements(ready) {
        if n in dependencies {
          SourceCount(n);
        }
      }
    }

    lemma SourceCount(n: Name)
      requires Valid() && n in dependencies
      ensures |dependencies[n]| == |Remaining(n, {})|
      ensures Free(n, {}) <==> |Remaining(n, {})| == 0
    {
      assert Distinct(dependencies[n]);
      assert Remaining(n, {}) == Elements(dependencies[n]);
    }

    ghost predicate WaitsWithin(n: Name, stuck: set<Name>) {
      exists d :: d in stuck && DependsOn(n, d)
    }

    /** A walk of any length exists inside a set where every task waits for another. */
    ghost function Walk(stuck: set<Name>, start: Name, steps: nat): (p: seq<Name>)
      requires start in stuck
      requires forall n {:trigger WaitsWithin(n, stuck)} | n in stuck :: WaitsWithin(n, stuck)
      ensures |p| == steps + 1 && p[0] == start && IsPath(p)
      ensures Elements(p) <= stuck
      decreases steps
    {
      if steps == 0 then [start]
      else
        assert WaitsWithin(start, stuck);
        var d :| d in stuck && DependsOn(start, d);
        [start] + Walk(stuck, d, steps - 1)
    }

    /** Tasks that all wait for each other contain a cycle. */
    lemma StuckMeansCycle(stuck: set<Name>)
      requires stuck != {}
      requires forall n {:trigger WaitsWithin(n, stuck)} | n in stuck :: WaitsWithin(n, stuck)
      ensures !Acyclic()
    {
      var start :| start in stuck;
      var p := Walk(stuck, start, |stuck|);
      var i, j := Pigeonhole(p, stuck);
      var cycle := p[i..j + 1];
      forall k | 0 <= k < |cycle| - 1 ensures DependsOn(cycle[k], cycle[k + 1]) {
        assert DependsOn(p[i + k], p[i + k + 1]);
      }
      assert IsCycle(cycle);
    }

    /** Along a path, positions in a topological order strictly decrease. */
    lemma {:induction false} PathDescends(order: seq<Name>, p: seq<Name>, i: nat) returns (k: nat)
      requires DependenciesFirst(order) && IsPath(p) && |p| >= 2
      requires i < |order| && order[i] == p[0]
      ensures k < i && order[k] == p[|p| - 1]
      decreases |p|
    {
      assert DependsOn(p[0], p[1]);
      k :| 0 <= k < i && order[k] == p[1];
      if |p| > 2 {
        assert IsPath(p[1..]) by {
          forall j | 0 <= j < |p[1..]| - 1 ensures DependsOn(p[1..][j], p[1..][j + 1]) {
            assert DependsOn(p[j + 1], p[j + 2]);
          }
        }
        k := PathDescends(order, p[1..], k);
      }
    }

    /** A topological order rules out every cycle. */
    lemma OrderMeansAcyclic(order: seq<Name>)
      requires Valid() && IsTopologicalOrder(order)
      ensures Acyclic()
    {
      forall p ensures !IsCycle(p) {
        if IsCycle(p) {
          assert DependsOn(p[0], p[1]);
          assert p[0] in Elements(order);
          DistinctPairs(order);
          var i: nat :| i < |order| && order[i] == p[0];
          var k := PathDescends(order, p, i);
          assert false;
        }
      }
    }

    // ---------- Ready tasks and skip propagation ----------

    predicate DependenciesSucceeded(n: Name, phases: map<Name, Phase>)
      requires n in dependencies
    {
      forall d | d in dependencies[n] :: d in phases && phases[d] == Succeeded
    }

    ghost function Ready(phases: map<Name, Phase>): set<Name> {
      set n | n in dependencies && n !in phases && DependenciesSucceeded(n, phases)
    }

    /** The unscheduled tasks whose dependencies have all succeeded, in declaration order. */
    method FindReadyTasks(phases: map<Name, Phase>) returns (ready: seq<Name>)
      requires Valid()
      ensures ready == Keep(names, Ready(phases))
    {
      ready := [];
      for i := 0 to |names|
        invariant ready == Keep(names[..i], Ready(phases))
      {
        KeepPrefix(names, Ready(phases), i);
        assert names[i] in Elements(names);
        if names[i] !in phases && DependenciesSucceeded(names[i], phases) {
          ready := ready + [names[i]];
        }
      }
      assert names[..|names|] == names;
    }

    /** A path from `p[0]` through unscheduled tasks to a task that can no longer succeed. */
    ghost predicate BlockingPath(phases: map<Name, Phase>, p: seq<Name>) {
      && |p| >= 2 && IsPath(p)
      && (forall i | 0 <= i < |p| - 1 :: p[i] !in phases)
      && p[|p| - 1] in phases && Unsuccessful(phases[p[|p| - 1]])
    }

    ghost predicate IsBlocked(phases: map<Name, Phase>, n: Name) {
      exists p :: BlockingPath(phases, p) && p[0] == n
    }

    /** The tasks that must be skipped: the meaning of skip propagation, without an order. */
    ghost function Blocked(phases: map<Name, Phase>): set<Name> {
      set n | n in dependencies && IsBlocked(phases, n)
    }

    /** The recorded phases with every blocked task marked as skipped. */
    ghost function Effective(phases: map<Name, Phase>): map<Name, Phase> {
      phases + map n | n in Blocked(phases) :: Skipped
    }

    lemma BlockedIsUnscheduled(phases: map<Name, Phase>, n: Name)
      requires IsBlocked(phases, n)
      ensures n !in phases && n in dependencies
    {
      var p :| BlockingPath(phases, p) && p[0] == n;
      assert DependsOn(p[0], p[1]);
    }

    /** A task is blocked through one of its dependencies. */
    lemma BlockedThrough(phases: map<Name, Phase>, n: Name) returns (d: Name)
      requires IsBlocked(phases, n)
      ensures DependsOn(n, d)
      ensures (d in phases && Unsuccessful(phases[d])) || IsBlocked(phases, d)
    {
      var p :| BlockingPath(phases, p) && p[0] == n;
      d := p[1];
      assert DependsOn(p[0], p[1]);
      if |p| > 2 {
        var rest := p[1..];
        forall i | 0 <= i < |rest| - 1 ensures DependsOn(rest[i], rest[i + 1]) && rest[i] !in phases {
          assert DependsOn(p[i + 1], p[i + 2]);
        }
        assert BlockingPath(phases, rest);
      }
    }

    lemma BlocksDependent(phases: map<Name, Phase>, n: Name, d: Name)
      requires n !in phases && DependsOn(n, d)
      requires (d in phases && Unsuccessful(phases[d])) || IsBlocked(phases, d)
      ensures IsBlocked(phases, n)
    {
      if d in phases && Unsuccessful(phases[d]) {
        assert BlockingPath(phases, [n, d]);
      } else {
        var p :| BlockingPath(phases, p) && p[0] == d;
        var longer := [n] + p;
        forall i | 0 <= i < |longer| - 1 ensures DependsOn(longer[i], longer[i + 1]) && longer[i] !in phases {
          if i > 0 {
            assert DependsOn(p[i - 1], p[i]);
          }
        }
        assert BlockingPath(phases, longer);
      }
    }

    /** The phases that skip propagation has assembled after the first `k` tasks of an order. */
    ghost function Assembled(phases: map<Name, Phase>, done: seq<Name>): map<Name, Phase> {
      phases + map n | n in Elements(done) && IsBlocked(phases, n) :: Skipped
    }

    predicate HasUnsuccessfulDependency(n: Name, phases: map<Name, Phase>)
      requires n in dependencies
    {
      exists d | d in dependencies[n] :: d in phases && Unsuccessful(phases[d])
    }

    /** When the dependencies of a task have been looked at, one pass decides the task. */
    lemma OnePassDecides(phases: map<Name, Phase>, order: seq<Name>, k: nat)
      requires Valid() && IsTopologicalOrder(order) && k < |order| && order[k] !in phases
      ensures order[k] in dependencies
      ensures HasUnsuccessfulDependency(order[k], Assembled(phases, order[..k])) <==> IsBlocked(phases, order[k])
    {
      var n, seen := order[k], Assembled(phases, order[..k]);
      assert n in Elements(order);
      if HasUnsuccessfulDependency(n, seen) {
        var d :| d in dependencies[n] && d in seen && Unsuccessful(seen[d]);
        assert d !in phases ==> IsBlocked(phases, d);
        BlocksDependent(phases, n, d);
      }
      if IsBlocked(phases, n) {
        var d := BlockedThrough(phases, n);
        if d !in phases || !Unsuccessful(phases[d]) {
          BlockedIsUnscheduled(phases, d);
          assert DependsOn(order[k], d);
          assert d in Elements(order[..k]);
        }
        assert d in seen && Unsuccessful(seen[d]);
      }
    }

    lemma AssembledStep(phases: map<Name, Phase>, order: seq<Name>, k: nat)
      requires k < |order|
      ensures Assembled(phases, order[..k + 1])
           == if IsBlocked(phases, order[k]) then Assembled(phases, order[..k])[order[k] := Skipped]
              else Assembled(phases, order[..k])
    {
      ElementsPrefix(order, k);
    }

    /** What a pass along an order decides of a task, given the phases assembled so far. */
    predicate PassSkips(n: Name, effective: map<Name, Phase>) {
      n in dependencies && n !in effective && HasUnsuccessfulDependency(n, effective)
    }

    /** The phases that a pass along any sequence of tasks assembles. */
    function PassPhases(phases: map<Name, Phase>, order: seq<Name>): map<Name, Phase> {
      if order == [] then phases
      else
        var last := |order| - 1;
        var before := PassPhases(phases, order[..last]);
        if PassSkips(order[last], before) then before[order[last] := Skipped] else before
    }

    /** The tasks that a pass along any sequence of tasks skips. */
    function Pass(phases: map<Name, Phase>, order: seq<Name>): seq<Name> {
      if order == [] then []
      else
        var last := |order| - 1;
        Pass(phases, order[..last])
        + if PassSkips(order[last], PassPhases(phases, order[..last])) then [order[last]] else []
    }

    /** The loop of skip propagation, along any sequence of tasks. */
    method SkipAlong(phases: map<Name, Phase>, order: seq<Name>) returns (skipped: seq<Name>)
      requires forall n | n in order :: n in dependencies
      ensures skipped == Pass(phases, order)
    {
      var effective := phases;
      skipped := [];
      for k := 0 to |order|
        invariant effective == PassPhases(phases, order[..k])
        invariant skipped == Pass(phases, order[..k])
      {
        var n := order[k];
        assert order[..k + 1][..k] == order[..k];
        if n !in effective && HasUnsuccessfulDependency(n, effective) {
          skipped := skipped + [n];
          effective := effective[n := Skipped];
        }
      }
      assert order[..|order|] == order;
    }

    /** Along every topological order, one pass skips exactly the tasks with a blocking path. */
    lemma PassFindsBlocked(phases: map<Name, Phase>, order: seq<Name>)
      requires Valid() && IsTopologicalOrder(order)
      ensures Pass(phases, order) == Keep(order, Blocked(phases))
    {
      OrderDecides(phases, order);
      PassPrefix(phases, order, |order|);
      assert order[..|order|] == order;
    }

    /** The pass decides the task at this position rightly, given the phases assembled before it. */
    ghost predicate DecidedAt(phases: map<Name, Phase>, order: seq<Name>, k: nat)
      requires k < |order|
    {
      order[k] in Blocked(phases) <==> PassSkips(order[k], Assembled(phases, order[..k]))
    }

    ghost predicate Decided(phases: map<Name, Phase>, order: seq<Name>) {
      forall k: nat {:trigger DecidedAt(phases, order, k)} | k < |order| :: DecidedAt(phases, order, k)
    }

    lemma OrderDecides(phases: map<Name, Phase>, order: seq<Name>)
      requires Valid() && IsTopologicalOrder(order)
      ensures Decided(phases, order) && Elements(order) == dependencies.Keys
    {
      forall k: nat | k < |order| ensures DecidedAt(phases, order, k) {
        PassStep(phases, order, k);
      }
    }

    lemma {:induction false} PassAssembles(phases: map<Name, Phase>, order: seq<Name>, k: nat)
      requires Decided(phases, order) && Elements(order) == dependencies.Keys && k <= |order|
      ensures PassPhases(phases, order[..k]) == Assembled(phases, order[..k])
    {
      if k > 0 {
        PassAssembles(phases, order, k - 1);
        PassNext(phases, order, k - 1);
        assert DecidedAt(phases, order, k - 1);
        AssembledStep(phases, order, k - 1);
        assert order[k - 1] in Elements(order);
      }
    }

    lemma PassExtends(phases: map<Name, Phase>, order: seq<Name>, k: nat)
      requires Decided(phases, order) && Elements(order) == dependencies.Keys && k < |order|
      ensures Pass(phases, order[..k + 1])
           == Pass(phases, order[..k]) + if order[k] in Blocked(phases) then [order[k]] else []
    {
      PassAssembles(phases, order, k);
      PassNext(phases, order, k);
      assert DecidedAt(phases, order, k);
    }

    lemma {:induction false} PassPrefix(phases: map<Name, Phase>, order: seq<Name>, k: nat)
      requires Decided(phases, order) && Elements(order) == dependencies.Keys && k <= |order|
      ensures Pass(phases, order[..k]) == Keep(order[..k], Blocked(phases))
    {
      if k > 0 {
        PassPrefix(phases, order, k - 1);
        PassExtends(phases, order, k - 1);
        KeepPrefix(order, Blocked(phases), k - 1);
      }
    }

    /** How one more task continues a pass. */
    lemma PassNext(phases: map<Name, Phase>, order: seq<Name>, k: nat)
      requires k < |order|
      ensures var skips := PassSkips(order[k], PassPhases(phases, order[..k]));
              && PassPhases(phases, order[..k + 1])
                 == (if skips then PassPhases(phases, order[..k])[order[k] := Skipped] else PassPhases(phases, order[..k]))
              && Pass(phases, order[..k + 1]) == Pass(phases, order[..k]) + if skips then [order[k]] else []
    {
      assert order[..k + 1][..k] == order[..k];
    }

    /** Skip propagation: one pass in topological order finds exactly the blocked tasks,
        each after the tasks it depends on. */
    method FindSkippedTasks(phases: map<Name, Phase>)
      returns (r: Result<seq<Name>, GraphError>, ghost order: seq<Name>)
      requires Valid()
      ensures r.Success? <==> Acyclic()
      ensures r.Success? ==> IsTopologicalOrder(order) && r.value == Keep(order, Blocked(phases))
      ensures r.Failure? ==> r.error == DependencyCycle
    {
      var sorted := TopologicalOrder();
      if sorted.Failure? {
        return Failure(sorted.error), [];
      }
      order := sorted.value;
      forall n | n in sorted.value ensures n in dependencies { assert n in Elements(order); }
      var skipped := SkipAlong(phases, sorted.value);
      PassFindsBlocked(phases, order);
      r := Success(skipped);
    }

    lemma PassStep(phases: map<Name, Phase>, order: seq<Name>, k: nat)
      requires Valid() && IsTopologicalOrder(order) && k < |order|
      ensures order[k] in dependencies
      ensures order[k] in Blocked(phases) <==>
                && order[k] !in Assembled(phases, order[..k])
                && HasUnsuccessfulDependency(order[k], Assembled(phases, order[..k]))
    {
      assert order[k] in Elements(order);
      DistinctPrefix(order, k);
      if order[k] in phases {
        if IsBlocked(phases, order[k]) {
          BlockedIsUnscheduled(phases, order[k]);
        }
      } else {
        OnePassDecides(phases, order, k);
      }
    }

    /** Among the kept tasks of an order, dependencies still come first. */
    lemma {:induction false} KeptDependencyFirst(order: seq<Name>, kept: set<Name>, k: nat, d: Name)
      requires DependenciesFirst(order) && k < |Keep(order, kept)|
      requires DependsOn(Keep(order, kept)[k], d) && d in kept
      ensures d in Keep(order, kept)[..k]
    {
      var last := |order| - 1;
      var rest := order[..last];
      if k < |Keep(rest, kept)| {
        forall i, e | 0 <= i < |rest| && DependsOn(rest[i], e) ensures e in rest[..i] {
          assert DependsOn(order[i], e);
          assert rest[..i] == order[..i];
        }
        KeptDependencyFirst(rest, kept, k, d);
        assert Keep(order, kept)[..k] == Keep(rest, kept)[..k];
      } else {
        assert order[last] == Keep(order, kept)[k];
        assert DependsOn(order[last], d);
        KeepElements(rest, kept);
        assert d in Elements(Keep(rest, kept));
        assert Keep(order, kept)[..k] == Keep(rest, kept);
      }
    }

    /** The skipped set does not depend on the order of the pass: along any two topological orders
        the same tasks are skipped, each once, and the assembled phases are the same. */
    lemma SkipsAreOrderIndependent(phases: map<Name, Phase>, order: seq<Name>, other: seq<Name>)
      requires Valid() && IsTopologicalOrder(order) && IsTopologicalOrder(other)
      ensures Elements(Pass(phases, order)) == Elements(Pass(phases, other)) == Blocked(phases)
      ensures Distinct(Pass(phases, order)) && Distinct(Pass(phases, other))
      ensures PassPhases(phases, order) == PassPhases(phases, other) == Effective(phases)
    {
      PassSet(phases, order);
      PassSet(phases, other);
    }

    lemma PassSet(phases: map<Name, Phase>, order: seq<Name>)
      requires Valid() && IsTopologicalOrder(order)
      ensures Elements(Pass(phases, order)) == Blocked(phases) && Distinct(Pass(phases, order))
      ensures PassPhases(phases, order) == Effective(phases)
    {
      PassFindsBlocked(phases, order);
      KeptBlocked(phases, order);
      OrderDecides(phases, order);
      PassAssembles(phases, order, |order|);
      assert order[..|order|] == order;
      AllAssembled(phases, order);
    }

    lemma KeptBlocked(phases: map<Name, Phase>, order: seq<Name>)
      requires Valid() && IsTopologicalOrder(order)
      ensures Elements(Keep(order, Blocked(phases))) == Blocked(phases) && Distinct(Keep(order, Blocked(phases)))
    {
      KeepElements(order, Blocked(phases));
      KeepDistinct(order, Blocked(phases));
    }

    lemma AllAssembled(phases: map<Name, Phase>, order: seq<Name>)
      requires Elements(order) == dependencies.Keys
      ensures Assembled(phases, order) == Effective(phases)
    {
    }
  }

  predicate Unsuccessful(phase: Phase) {
    phase == Failed || phase == TimedOut || phase == Skipped
  }

  // ---------- Building the graph ----------

  function Names(tasks: seq<TaskSpec>): seq<Name> {
    seq(|tasks|, i requires 0 <= i < |tasks| => tasks[i].name)
  }

  /** The declared tasks by name. */
  function ByName(tasks: seq<TaskSpec>): map<Name, TaskSpec> {
    if tasks == [] then map[]
    else
      var last := |tasks| - 1;
      ByName(tasks[..last])[tasks[last].name := tasks[last]]
  }

  function DependenciesOf(tasks: seq<TaskSpec>): map<Name, seq<Name>> {
    var specs := ByName(tasks);
    map n | n in specs :: specs[n].dependsOn
  }

  function GraphOf(tasks: seq<TaskSpec>): Graph {
    Graph(Names(tasks), DependenciesOf(tasks))
  }

  /** A task that may be part of a workflow: it requires other declared tasks, each once,
      and consumes, each once, results of tasks it requires. */
  predicate WellFormedTask(task: TaskSpec, names: seq<Name>) {
    && WellFormedDependencies(task, names)
    && Distinct(task.from) && forall s | s in task.from :: s in task.dependsOn
  }

  predicate WellFormedDependencies(task: TaskSpec, names: seq<Name>) {
    && Distinct(task.dependsOn)
    && forall d | d in task.dependsOn :: d != task.name && d in names
  }

  predicate WellFormed(tasks: seq<TaskSpec>) {
    && tasks != []
    && Distinct(Names(tasks))
    && forall t | t in tasks :: WellFormedTask(t, Names(tasks))
  }

  /** What each error message asserts about the declared tasks. */
  ghost predicate Justifies(e: GraphError, tasks: seq<TaskSpec>) {
    match e
    case EmptyWorkflow => tasks == []
    case DuplicateTask(n) => exists i, j | 0 <= i < j < |tasks| :: tasks[i].name == n == tasks[j].name
    case DependencyCycle => !GraphOf(tasks).Acyclic()
    case _ => exists t | t in tasks :: t.name == e.name && JustifiesTask(e, t, Names(tasks))
  }

  predicate JustifiesTask(e: GraphError, t: TaskSpec, names: seq<Name>) {
    match e
    case DuplicateDependencies(_) => !Distinct(t.dependsOn)
    case SelfDependency(_) => t.name in t.dependsOn
    case UnknownDependency(_, d) => d in t.dependsOn && d !in names
    case OwnResult(_) => t.name in t.from
    case UnknownSource(_, s) => s in t.from && s !in names
    case DuplicateSource(_, s) => s in t.from && !Distinct(t.from)
    case SourceNotRequired(_, s) => s in t.from && s !in t.dependsOn
    case _ => false
  }

  /** Pass 1: collect the task names and reject a repeated one. */
  method CollectNames(tasks: seq<TaskSpec>) returns (r: Result<seq<Name>, GraphError>)
    ensures r.Success? <==> Distinct(Names(tasks))
    ensures r.Success? ==> r.value == Names(tasks)
    ensures r.Failure? ==> r.error.DuplicateTask? && Justifies(r.error, tasks)
  {
    var names: seq<Name> := [];
    for i := 0 to |tasks|
      invariant names == Names(tasks[..i]) && Distinct(names)
    {
      var n := tasks[i].name;
      if n in names {
        RepeatedName(tasks, i);
        return Failure(DuplicateTask(n));
      }
      ElementsAppend(names, n);
      assert Names(tasks[..i + 1]) == names + [n];
      names := names + [n];
    }
    assert tasks[..|tasks|] == tasks;
    return Success(names);
  }

  lemma RepeatedName(tasks: seq<TaskSpec>, i: nat)
    requires i < |tasks| && tasks[i].name in Names(tasks[..i])
    ensures !Distinct(Names(tasks)) && Justifies(DuplicateTask(tasks[i].name), tasks)
  {
    var j :| 0 <= j < i && Names(tasks[..i])[j] == tasks[i].name;
    assert tasks[j].name == tasks[i].name;
    assert Names(tasks)[j] == Names(tasks)[i];
    DistinctPairs(Names(tasks));
  }

  /** Pass 2, one task: its control-flow dependencies. */
  method CheckDependencies(task: TaskSpec, names: seq<Name>) returns (r: Option<GraphError>)
    ensures r.None? <==> WellFormedDependencies(task, names)
    ensures r.Some? ==> !r.value.EmptyWorkflow? && !r.value.DependencyCycle? && r.value.name == task.name
    ensures r.Some? ==> JustifiesTask(r.value, task, names)
  {
    if !Distinct(task.dependsOn) {
      return Some(DuplicateDependencies(task.name));
    }
    for k := 0 to |task.dependsOn|
      invariant forall d | d in task.dependsOn[..k] :: d != task.name && d in names
    {
      var d := task.dependsOn[k];
      assert d in task.dependsOn;
      assert task.dependsOn[..k + 1] == task.dependsOn[..k] + [d];
      if d == task.name {
        return Some(SelfDependency(task.name));
      }
      if d !in names {
        return Some(UnknownDependency(task.name, d));
      }
    }
    assert task.dependsOn[..|task.dependsOn|] == task.dependsOn;
    return None;
  }

  /** Pass 3, one task: the results it consumes. */
  method CheckSources(task: TaskSpec, names: seq<Name>) returns (r: Option<GraphError>)
    requires WellFormedDependencies(task, names)
    ensures r.None? <==> WellFormedTask(task, names)
    ensures r.Some? ==> !r.value.EmptyWorkflow? && !r.value.DependencyCycle? && r.value.name == task.name
    ensures r.Some? ==> JustifiesTask(r.value, task, names)
  {
    var seen: set<Name> := {};
    for k := 0 to |task.from|
      invariant seen == Elements(task.from[..k]) && |seen| == k
      invariant seen <= Elements(task.dependsOn)
    {
      var s := task.from[k];
      ElementsPrefix(task.from, k);
      assert s in task.from;
      if s == task.name {
        return Some(OwnResult(task.name));
      }
      if s !in names {
        return Some(UnknownSource(task.name, s));
      }
      if s in seen {
        RepeatedSource(task.from, k);
        return Some(DuplicateSource(task.name, s));
      }
      if s !in task.dependsOn {
        return Some(SourceNotRequired(task.name, s));
      }
      seen := seen + {s};
    }
    assert task.from[..|task.from|] == task.from;
    assert forall s | s in task.from :: s in seen;
    return None;
  }

  lemma RepeatedSource(from: seq<Name>, k: nat)
    requires k < |from| && from[k] in Elements(from[..k])
    ensures !Distinct(from)
  {
    if Distinct(from) {
      DistinctPrefix(from, k);
      assert false;
    }
  }

  /** With distinct names, every task is found under its own name. */
  lemma {:induction false} ByNameFinds(tasks: seq<TaskSpec>, k: nat, i: nat)
    requires Distinct(Names(tasks)) && i < k <= |tasks|
    ensures tasks[i].name in ByName(tasks[..k]) && ByName(tasks[..k])[tasks[i].name] == tasks[i]
    decreases k
  {
    assert tasks[..k][..k - 1] == tasks[..k - 1];
    if i < k - 1 {
      ByNameFinds(tasks, k - 1, i);
      DistinctPairs(Names(tasks));
      assert Names(tasks)[i] != Names(tasks)[k - 1];
    }
  }

  lemma {:induction false} ByNameKeys(tasks: seq<TaskSpec>)
    ensures ByName(tasks).Keys == Elements(Names(tasks))
  {
    if tasks != [] {
      var last := |tasks| - 1;
      ByNameKeys(tasks[..last]);
      assert Names(tasks) == Names(tasks[..last]) + [tasks[last].name];
      ElementsAppend(Names(tasks[..last]), tasks[last].name);
    }
  }

  /** What the declaration of a well-formed workflow says about a task found by name. */
  lemma Declared(tasks: seq<TaskSpec>, n: Name)
    requires WellFormed(tasks) && n in Names(tasks)
    ensures n in ByName(tasks) && ByName(tasks)[n].name == n && ByName(tasks)[n] in tasks
    ensures WellFormedTask(ByName(tasks)[n], Names(tasks))
  {
    var i :| 0 <= i < |tasks| && Names(tasks)[i] == n;
    assert tasks[..|tasks|] == tasks;
    ByNameFinds(tasks, |tasks|, i);
    assert tasks[i] in tasks;
  }

  /** A declaration that passes the per-task checks gives a valid graph. */
  lemma WellFormedGraph(tasks: seq<TaskSpec>)
    requires WellFormed(tasks)
    ensures GraphOf(tasks).Valid()
  {
    ByNameKeys(tasks);
    forall n | n in Names(tasks)
      ensures n in DependenciesOf(tasks) && Distinct(DependenciesOf(tasks)[n])
      ensures forall d | d in DependenciesOf(tasks)[n] :: d in Names(tasks)
    {
      Declared(tasks, n);
    }
  }

  /** Validation of a workflow's task list: it succeeds exactly on well-formed acyclic
      declarations, returns their graph, and every error it reports is true of the declaration. */
  method BuildWorkflowGraph(tasks: seq<TaskSpec>) returns (r: Result<Graph, GraphError>)
    ensures r.Success? <==> WellFormed(tasks) && GraphOf(tasks).Acyclic()
    ensures r.Success? ==> r.value == GraphOf(tasks) && r.value.Valid()
    ensures r.Failure? ==> Justifies(r.error, tasks)
  {
    if tasks == [] {
      return Failure(EmptyWorkflow);
    }
    var collected := CollectNames(tasks);
    if collected.Failure? {
      return Failure(collected.error);
    }
    var names := collected.value;
    var dependencies: map<Name, seq<Name>> := map[];
    for i := 0 to |tasks|
      invariant dependencies == DependenciesOf(tasks[..i])
      invariant forall t | t in tasks[..i] :: WellFormedDependencies(t, names)
    {
      var bad := CheckDependencies(tasks[i], names);
      assert tasks[i] in tasks;
      if bad.Some? {
        return Failure(bad.value);
      }
      assert tasks[..i + 1][..i] == tasks[..i];
      dependencies := dependencies[tasks[i].name := tasks[i].dependsOn];
    }
    assert tasks[..|tasks|] == tasks;
    for i := 0 to |tasks|
      invariant forall t | t in tasks[..i] :: WellFormedTask(t, names)
    {
      assert tasks[i] in tasks;
      var bad := CheckSources(tasks[i], names);
      if bad.Some? {
        return Failure(bad.value);
      }
    }
    var graph := Graph(names, dependencies);
    WellFormedGraph(tasks);
    var order := graph.TopologicalOrder();
    if order.Failure? {
      return Failure(order.error);
    }
    return Success(graph);
  }
}
