/** One reconciliation of a Workflow (operator/src/agent_operator/workflow_controller.py):
    what it reads, which Tasks it creates and which status it writes. */
module WorkflowReconcile {
  import opened Wrappers
  import opened Sequences
  import opened WorkflowGraph

  /** A Task resource owned by the Workflow. */
  datatype Task = Task(prompt: string, phase: Phase, result: Option<string>)

  /** One entry of `status.tasks`; an absent field is None. */
  datatype NodeStatus =
    NodeStatus(phase: Phase, taskRef: Option<string>, reason: Option<string>, message: Option<string>)

  datatype Status = Status(phase: Option<Phase>, taskCount: Option<nat>, tasks: map<Name, NodeStatus>)

  /** A merge patch of the status; None stands for null and removes the node. */
  datatype Patch = Patch(phase: Phase, taskCount: nat, tasks: map<Name, Option<NodeStatus>>)

  predicate Terminal(phase: Phase) {
    phase == Succeeded || phase == Failed || phase == TimedOut || phase == Skipped
  }

  function PhaseText(phase: Phase): string {
    match phase
    case Pending => "Pending"
    case Running => "Running"
    case Succeeded => "Succeeded"
    case Failed => "Failed"
    case TimedOut => "TimedOut"
    case Skipped => "Skipped"
  }

  // ---------- Prompts ----------

  /** The prompt of a task followed by one labelled section for each consumed result. */
  function PromptWithResults(task: TaskSpec, results: map<Name, string>): string
    requires forall s | s in task.from :: s in results
  {
    if task.from == [] then task.prompt
    else task.prompt + "\n\nPrevious task results:" + ResultSections(task.from, results)
  }

  function ResultSections(from: seq<Name>, results: map<Name, string>): string
    requires forall s | s in from :: s in results
  {
    if from == [] then ""
    else
      var last := |from| - 1;
      ResultSections(from[..last], results) + "\n\n[" + from[last] + "]\n" + results[from[last]]
  }

  /** The part of a prompt for one source: its name and its result. */
  predicate IsResultPart(part: string, source: Name, result: string) {
    part == "\n\n[" + source + "]\n" + result
  }

  /** What a resolved prompt holds: the declared prompt, and after a heading one part for each source,
      in order, which names the source and carries the result of that very source. */
  predicate CarriesResults(prompt: string, task: TaskSpec, results: map<Name, string>, parts: seq<string>) {
    && |parts| == |task.from|
    && (forall k | 0 <= k < |parts| ::
          task.from[k] in results && IsResultPart(parts[k], task.from[k], results[task.from[k]]))
    && prompt == if task.from == [] then task.prompt
                 else task.prompt + "\n\nPrevious task results:" + Flatten(parts)
  }

  lemma {:induction false} SectionsInParts(from: seq<Name>, results: map<Name, string>) returns (parts: seq<string>)
    requires forall s | s in from :: s in results
    ensures |parts| == |from| && Flatten(parts) == ResultSections(from, results)
    ensures forall k | 0 <= k < |parts| :: IsResultPart(parts[k], from[k], results[from[k]])
  {
    if from == [] {
      parts := [];
    } else {
      var last := |from| - 1;
      var before := SectionsInParts(from[..last], results);
      var part := "\n\n[" + from[last] + "]\n" + results[from[last]];
      FlattenAppend(before, part);
      SectionRegrouped(Flatten(before), from[last], results[from[last]]);
      parts := before + [part];
    }
  }

  lemma SectionRegrouped(before: string, name: Name, result: string)
    ensures before + ("\n\n[" + name + "]\n" + result) == before + "\n\n[" + name + "]\n" + result
  {
  }

  lemma PromptCarriesResults(task: TaskSpec, results: map<Name, string>)
    requires forall s | s in task.from :: s in results
    ensures exists parts :: CarriesResults(PromptWithResults(task, results), task, results, parts)
  {
    var parts := SectionsInParts(task.from, results);
    assert CarriesResults(PromptWithResults(task, results), task, results, parts);
  }

  /** Python's `"\n".join(sections)`. */
  function JoinLines(sections: seq<string>): string {
    if sections == [] then ""
    else if |sections| == 1 then sections[0]
    else JoinLines(sections[..|sections| - 1]) + "\n" + sections[|sections| - 1]
  }

  lemma JoinLinesAppend(sections: seq<string>, name: Name, result: string)
    requires sections != []
    ensures JoinLines(sections + ["", "[" + name + "]", result])
         == JoinLines(sections) + "\n\n[" + name + "]\n" + result
  {
    var s1 := sections + [""];
    var s2 := s1 + ["[" + name + "]"];
    var s3 := s2 + [result];
    assert sections + ["", "[" + name + "]", result] == s3;
    assert s1[..|s1| - 1] == sections && s2[..|s2| - 1] == s1 && s3[..|s3| - 1] == s2;
    calc {
      JoinLines(s3);
      JoinLines(s2) + "\n" + result;
      JoinLines(s1) + "\n" + ("[" + name + "]") + "\n" + result;
      JoinLines(sections) + "\n" + "" + "\n" + ("[" + name + "]") + "\n" + result;
      JoinLines(sections) + ("\n" + "" + "\n" + "[") + name + ("]" + "\n") + result;
      { assert "\n" + "" + "\n" + "[" == "\n\n[" && "]" + "\n" == "]\n"; }
      JoinLines(sections) + "\n\n[" + name + "]\n" + result;
    }
  }

  lemma JoinHeader(prompt: string)
    ensures JoinLines([prompt, "", "Previous task results:"]) == prompt + "\n\nPrevious task results:"
  {
    var sections := [prompt, "", "Previous task results:"];
    assert sections[..2] == [prompt, ""] && sections[..2][..1] == [prompt];
    calc {
      JoinLines(sections);
      JoinLines([prompt, ""]) + "\n" + "Previous task results:";
      prompt + "\n" + "" + "\n" + "Previous task results:";
      prompt + ("\n" + "" + "\n" + "Previous task results:");
      { assert "\n" + "" + "\n" + "Previous task results:" == "\n\nPrevious task results:"; }
      prompt + "\n\nPrevious task results:";
    }
  }

  method ResolveTaskPrompt(task: TaskSpec, results: map<Name, string>) returns (prompt: string)
    requires forall s | s in task.from :: s in results
    ensures prompt == PromptWithResults(task, results)
    ensures exists parts :: CarriesResults(prompt, task, results, parts)
  {
    if task.from == [] {
      PromptCarriesResults(task, results);
      return task.prompt;
    }
    var sections := [task.prompt, "", "Previous task results:"];
    JoinHeader(task.prompt);
    for k := 0 to |task.from|
      invariant sections != []
      invariant JoinLines(sections)
             == task.prompt + "\n\nPrevious task results:" + ResultSections(task.from[..k], results)
    {
      var s := task.from[k];
      JoinLinesAppend(sections, s, results[s]);
      assert task.from[..k + 1][..k] == task.from[..k];
      sections := sections + ["", "[" + s + "]", results[s]];
    }
    assert task.from[..|task.from|] == task.from;
    PromptCarriesResults(task, results);
    return JoinLines(sections);
  }

  // ---------- Statuses ----------

  function Restrict(phases: map<Name, Phase>, dependencies: seq<Name>): map<Name, Phase> {
    map d | d in dependencies && d in phases :: phases[d]
  }

  function Blocking(phases: map<Name, Phase>): set<Name> {
    set d | d in phases && Unsuccessful(phases[d])
  }

  /** One part for each dependency that cannot succeed: its name and its phase, after a comma. */
  function BlockerParts(blockers: seq<Name>, phases: map<Name, Phase>): seq<string>
    requires forall d | d in blockers :: d in phases
  {
    seq(|blockers|, k requires 0 <= k < |blockers| =>
      (if k == 0 then "" else ", ") + (blockers[k] + " (" + PhaseText(phases[blockers[k]]) + ")"))
  }

  function SkipReason(blockers: seq<Name>, phases: map<Name, Phase>): string
    requires forall d | d in blockers :: d in phases
  {
    if exists d | d in blockers :: phases[d] == Failed || phases[d] == TimedOut then "DependencyFailed"
    else "DependencySkipped"
  }

  function SkipMessage(n: Name, blockers: seq<Name>, phases: map<Name, Phase>): string
    requires forall d | d in blockers :: d in phases
  {
    "Task '" + n + "' skipped because required dependencies cannot succeed: " + Flatten(BlockerParts(blockers, phases))
  }

  lemma BlockersKnown(dependencies: seq<Name>, phases: map<Name, Phase>)
    ensures forall d | d in Keep(dependencies, Blocking(phases)) :: d in phases
  {
    var blockers := Keep(dependencies, Blocking(phases));
    KeepElements(dependencies, Blocking(phases));
    assert forall d | d in blockers :: d in Elements(blockers);
  }

  /** The status of a skipped task names every dependency that cannot succeed.
      It depends on the phases of those dependencies only. */
  function SkippedStatus(n: Name, dependencies: seq<Name>, phases: map<Name, Phase>): NodeStatus {
    var seen := Restrict(phases, dependencies);
    var blockers := Keep(dependencies, Blocking(seen));
    BlockersKnown(dependencies, seen);
    NodeStatus(Skipped, None, Some(SkipReason(blockers, seen)), Some(SkipMessage(n, blockers, seen)))
  }

  /** The part of a skip message for one dependency: its name and its phase, after a comma. */
  predicate IsBlockerPart(part: string, k: nat, d: Name, phase: Phase) {
    part == (if k == 0 then "" else ", ") + (d + " (" + PhaseText(phase) + ")")
  }

  /** What the status of a skipped task says: DependencyFailed exactly when some dependency failed or
      timed out, and in the message each dependency that cannot succeed, with its phase, in order. */
  lemma SkippedStatusMeans(n: Name, dependencies: seq<Name>, phases: map<Name, Phase>)
    returns (blockers: seq<Name>, parts: seq<string>)
    ensures blockers == Keep(dependencies, set d | d in phases && phases[d] in {Failed, TimedOut, Skipped})
    ensures |parts| == |blockers|
    ensures forall k | 0 <= k < |parts| :: blockers[k] in phases
              && IsBlockerPart(parts[k], k, blockers[k], phases[blockers[k]])
    ensures var status := SkippedStatus(n, dependencies, phases);
            && status.phase == Skipped && status.taskRef == None
            && status.message == Some(
                 "Task '" + n + "' skipped because required dependencies cannot succeed: " + Flatten(parts))
            && status.reason == Some(
                 if exists d | d in dependencies :: d in phases && (phases[d] == Failed || phases[d] == TimedOut)
                 then "DependencyFailed" else "DependencySkipped")
  {
    var seen := Restrict(phases, dependencies);
    blockers := Keep(dependencies, Blocking(seen));
    BlockersKnown(dependencies, seen);
    var unsuccessful := set d | d in phases && phases[d] in {Failed, TimedOut, Skipped};
    KeepSame(dependencies, Blocking(seen), unsuccessful);
    KeepElements(dependencies, Blocking(seen));
    assert forall d :: d in blockers <==> d in Elements(blockers);
    parts := BlockerParts(blockers, seen);
  }

  lemma {:induction false} KeepSame(s: seq<Name>, a: set<Name>, b: set<Name>)
    requires forall x | x in s :: x in a <==> x in b
    ensures Keep(s, a) == Keep(s, b)
  {
    if s != [] {
      KeepSame(s[..|s| - 1], a, b);
    }
  }

  /** Phases of all nodes, folded into the phase of the Workflow. */
  function AggregatePhase(names: seq<Name>, statuses: map<Name, NodeStatus>): Phase
    requires forall n | n in names :: n in statuses
  {
    if names != [] && forall n | n in names :: statuses[n].phase == Succeeded then Succeeded
    else if names != [] && forall n | n in names :: Terminal(statuses[n].phase) then Failed
    else Running
  }

  // ---------- Merge patches ----------

  function MergeField<T>(current: Option<T>, change: Option<T>): Option<T> {
    if change.Some? then change else current
  }

  /** Section 2 of RFC 7396 on one node: fields the patch does not mention stay. */
  function MergeNode(current: NodeStatus, change: NodeStatus): NodeStatus {
    NodeStatus(change.phase, MergeField(current.taskRef, change.taskRef),
               MergeField(current.reason, change.reason), MergeField(current.message, change.message))
  }

  /** Section 2 of RFC 7396 on the status: null removes a node, an object is merged into it. */
  function ApplyPatch(current: Status, patch: Patch): Status {
    Status(
      Some(patch.phase), Some(patch.taskCount),
      map n | n in current.tasks.Keys + patch.tasks.Keys && (n in patch.tasks ==> patch.tasks[n].Some?) ::
        if n !in patch.tasks then current.tasks[n]
        else if n in current.tasks then MergeNode(current.tasks[n], patch.tasks[n].value)
        else patch.tasks[n].value)
  }

  function Write(current: Status, patch: Option<Patch>): Status {
    if patch.None? then current else ApplyPatch(current, patch.value)
  }

  /** The patch that the controller sends to move `body` to `desired`; none when they agree. */
  function PatchTo(body: Status, desired: Status): Option<Patch>
    requires desired.phase.Some? && desired.taskCount.Some?
  {
    if body == desired then None
    else Some(Patch(desired.phase.value, desired.taskCount.value,
                    map n | n in desired.tasks.Keys + body.tasks.Keys ::
                      if n in desired.tasks then Some(desired.tasks[n]) else None))
  }

  method PatchWorkflowStatus(body: Status, phase: Phase, taskCount: nat, statuses: map<Name, NodeStatus>)
    returns (patch: Option<Patch>)
    ensures patch == PatchTo(body, Status(Some(phase), Some(taskCount), statuses))
  {
    if body == Status(Some(phase), Some(taskCount), statuses) {
      return None;
    }
    var nodes: map<Name, Option<NodeStatus>> := map n | n in statuses :: Some(statuses[n]);
    var stale := body.tasks.Keys - statuses.Keys;
    var left := stale;
    while left != {}
      invariant left <= stale
      invariant nodes == map n | n in statuses.Keys + (stale - left) ::
                           if n in statuses then Some(statuses[n]) else None
    {
      var n :| n in left;
      nodes := nodes[n := None];
      left := left - {n};
    }
    assert statuses.Keys + (stale - left) == statuses.Keys + body.tasks.Keys;
    return Some(Patch(phase, taskCount, nodes));
  }

  /** No field of `current` survives that `desired` does not have. */
  predicate Overwrites(desired: NodeStatus, current: NodeStatus) {
    && (current.taskRef.Some? ==> desired.taskRef.Some?)
    && (current.reason.Some? ==> desired.reason.Some?)
    && (current.message.Some? ==> desired.message.Some?)
  }

  /** When a patch made from `body` turns `current` into exactly the desired status: with nothing to
      patch, `current` must be the desired status already; else `body` must know every node that
      has to go, and no field of a node may be left over, as merge patches cannot remove a field
      that they do not mention. */
  ghost predicate PatchFits(current: Status, body: Status, desired: Status) {
    if body == desired then current == desired
    else
      && (forall n | n in current.tasks && n !in desired.tasks :: n in body.tasks)
      && (forall n | n in desired.tasks && n in current.tasks :: Overwrites(desired.tasks[n], current.tasks[n]))
  }

  lemma PatchIsExact(current: Status, body: Status, desired: Status)
    requires desired.phase.Some? && desired.taskCount.Some?
    ensures Write(current, PatchTo(body, desired)) == desired <==> PatchFits(current, body, desired)
  {
    if body != desired {
      var result := Write(current, PatchTo(body, desired));
      forall n | n in current.tasks ensures n in result.tasks <==> n in desired.tasks || n !in body.tasks {}
      forall n | n in desired.tasks ensures n in result.tasks {}
      forall n | n in desired.tasks && n in current.tasks
        ensures result.tasks[n] == desired.tasks[n] <==> Overwrites(desired.tasks[n], current.tasks[n])
      {}
      if PatchFits(current, body, desired) {
        assert result.tasks.Keys == desired.tasks.Keys;
        forall n | n in desired.tasks ensures result.tasks[n] == desired.tasks[n] {}
      }
    }
  }

  // ---------- What a reconciliation decides ----------

  datatype Workflow = Workflow(name: string, tasks: seq<TaskSpec>) {
    ghost predicate Valid() {
      WellFormed(tasks) && GraphOf(tasks).Acyclic()
    }

    /** The phases of the listed Tasks, and the skips persisted in the Workflow's status. */
    function Observed(listing: map<Name, Task>, body: Status): map<Name, Phase> {
      map n | n in listing.Keys + body.tasks.Keys && (n in listing || body.tasks[n].phase == Skipped) ::
        if n in listing then listing[n].phase else Skipped
    }

    ghost function Skips(listing: map<Name, Task>, body: Status): set<Name> {
      GraphOf(tasks).Blocked(Observed(listing, body))
    }

    ghost function Effective(listing: map<Name, Task>, body: Status): map<Name, Phase> {
      GraphOf(tasks).Effective(Observed(listing, body))
    }

    /** Every result that the task consumes is available. */
    predicate HasResults(n: Name, listing: map<Name, Task>) {
      n in ByName(tasks) && forall s | s in ByName(tasks)[n].from :: s in listing && listing[s].result.Some?
    }

    /** The results that the task consumes. */
    function Results(n: Name, listing: map<Name, Task>): map<Name, string>
      requires HasResults(n, listing)
    {
      map s | s in ByName(tasks)[n].from :: listing[s].result.value
    }

    function Prompt(n: Name, listing: map<Name, Task>): string
      requires HasResults(n, listing)
    {
      PromptWithResults(ByName(tasks)[n], Results(n, listing))
    }

    function NewTask(n: Name, listing: map<Name, Task>): Task
      requires HasResults(n, listing)
    {
      Task(Prompt(n, listing), Pending, None)
    }

    function BaseNode(n: Name, listing: map<Name, Task>, body: Status): NodeStatus {
      if n in listing then NodeStatus(listing[n].phase, Some(name + "-" + n), None, None)
      else if n in body.tasks && body.tasks[n].phase == Skipped then body.tasks[n]
      else NodeStatus(Pending, None, None, None)
    }

    function BaseNodes(listing: map<Name, Task>, body: Status): map<Name, NodeStatus> {
      map n | n in Names(tasks) :: BaseNode(n, listing, body)
    }

    function SkipStatuses(skipped: set<Name>, phases: map<Name, Phase>): map<Name, NodeStatus> {
      var dependencies := GraphOf(tasks).dependencies;
      map n | n in skipped && n in dependencies :: SkippedStatus(n, dependencies[n], phases)
    }

    ghost function Nodes(listing: map<Name, Task>, body: Status): map<Name, NodeStatus> {
      BaseNodes(listing, body) + SkipStatuses(Skips(listing, body), Effective(listing, body))
    }

    /** The status that a reconciliation wants to see. */
    ghost function Desired(listing: map<Name, Task>, body: Status): Status {
      var nodes := Nodes(listing, body);
      Status(Some(AggregatePhase(Names(tasks), nodes)), Some(|tasks|), nodes)
    }

    lemma NodeKeys(listing: map<Name, Task>, body: Status)
      ensures Nodes(listing, body).Keys == Elements(Names(tasks))
    {
      ByNameKeys(tasks);
      var skips := SkipStatuses(Skips(listing, body), Effective(listing, body));
      assert skips.Keys <= ByName(tasks).Keys;
    }

    /** Every declared task has a node: skipped when blocked, else as its Task or its last status says. */
    lemma NodeOf(listing: map<Name, Task>, body: Status, n: Name)
      requires n in Names(tasks)
      ensures n in Nodes(listing, body)
      ensures n in Skips(listing, body) ==>
                (Nodes(listing, body)[n]
                 == SkippedStatus(n, GraphOf(tasks).dependencies[n], Effective(listing, body)))
      ensures n !in Skips(listing, body) ==> Nodes(listing, body)[n] == BaseNode(n, listing, body)
    {
      var skips := SkipStatuses(Skips(listing, body), Effective(listing, body));
      assert n in skips <==> n in Skips(listing, body);
      assert n in BaseNodes(listing, body);
    }

    /** A node reports the phase that the reconciliation acted on. */
    lemma NodePhase(listing: map<Name, Task>, body: Status, n: Name)
      requires n in Names(tasks)
      ensures n in Nodes(listing, body)
      ensures Nodes(listing, body)[n].phase
           == if n in Effective(listing, body) then Effective(listing, body)[n] else Pending
    {
      NodeOf(listing, body, n);
      EffectivePhase(listing, body, n);
    }

    lemma EffectivePhase(listing: map<Name, Task>, body: Status, n: Name)
      requires n in Names(tasks)
      ensures n in Effective(listing, body) ==>
                (Effective(listing, body)[n]
                 == if n in Skips(listing, body) then Skipped else BaseNode(n, listing, body).phase)
      ensures n !in Effective(listing, body) ==>
                n !in Skips(listing, body) && BaseNode(n, listing, body).phase == Pending
    {
    }

    /** The tasks that a reconciliation tries to create, in declaration order. */
    ghost function ReadyList(listing: map<Name, Task>, body: Status): seq<Name> {
      Keep(Names(tasks), GraphOf(tasks).Ready(Effective(listing, body)))
    }

    /** The Tasks after attempting the creations in turn: a task whose inputs are missing
        is passed over, and creating a Task that exists changes nothing. */
    function CreateAll(existing: map<Name, Task>, attempts: seq<Name>, listing: map<Name, Task>): map<Name, Task> {
      if attempts == [] then existing
      else
        var last := |attempts| - 1;
        var before := CreateAll(existing, attempts[..last], listing);
        var n := attempts[last];
        if HasResults(n, listing) && n !in before then before[n := NewTask(n, listing)] else before
    }

    lemma {:induction false} CreateAllResult(existing: map<Name, Task>, attempts: seq<Name>, listing: map<Name, Task>)
      ensures forall n | n in existing :: n in CreateAll(existing, attempts, listing)
                                       && CreateAll(existing, attempts, listing)[n] == existing[n]
      ensures forall n | n in attempts && HasResults(n, listing) :: n in CreateAll(existing, attempts, listing)
      ensures forall n | n in CreateAll(existing, attempts, listing) && n !in existing ::
                && n in attempts && HasResults(n, listing)
                && CreateAll(existing, attempts, listing)[n] == NewTask(n, listing)
    {
      if attempts != [] {
        var last := |attempts| - 1;
        CreateAllResult(existing, attempts[..last], listing);
        assert attempts == attempts[..last] + [attempts[last]];
      }
    }

    ghost function AfterCreates(existing: map<Name, Task>, listing: map<Name, Task>, body: Status): map<Name, Task> {
      CreateAll(existing, ReadyList(listing, body), listing)
    }

    // ---------- The reconciliation itself ----------

    method MergePersistedSkips(listing: map<Name, Task>, body: Status) returns (phases: map<Name, Phase>)
      ensures phases == Observed(listing, body)
    {
      phases := map n | n in listing :: listing[n].phase;
      ghost var observed := Observed(listing, body);
      var left := body.tasks.Keys;
      while left != {}
        invariant left <= body.tasks.Keys
        invariant phases == map n | n in observed && (n in listing || n !in left) :: observed[n]
      {
        var n :| n in left;
        if n !in listing && body.tasks[n].phase == Skipped {
          phases := phases[n := Skipped];
        }
        left := left - {n};
      }
    }

    method BuildWorkflowTaskStatuses(listing: map<Name, Task>, body: Status) returns (nodes: map<Name, NodeStatus>)
      ensures nodes == BaseNodes(listing, body)
    {
      var names := Names(tasks);
      nodes := map[];
      for k := 0 to |names|
        invariant nodes == map n | n in names[..k] :: BaseNode(n, listing, body)
      {
        assert names[..k + 1] == names[..k] + [names[k]];
        nodes := nodes[names[k] := BaseNode(names[k], listing, body)];
      }
      assert names[..|names|] == names;
    }

    static function Marked(observed: map<Name, Phase>, skipped: set<Name>): map<Name, Phase> {
      observed + map n | n in skipped :: Skipped
    }

    lemma MarkOne(phases: map<Name, Phase>, skipped: set<Name>, n: Name)
      requires n in GraphOf(tasks).dependencies
      ensures SkipStatuses(skipped + {n}, phases)
           == SkipStatuses(skipped, phases)[n := SkippedStatus(n, GraphOf(tasks).dependencies[n], phases)]
    {
      var one := SkippedStatus(n, GraphOf(tasks).dependencies[n], phases);
      var before, after := SkipStatuses(skipped, phases), SkipStatuses(skipped + {n}, phases);
      assert after.Keys == before.Keys + {n};
      forall m | m in after ensures after[m] == before[n := one][m] {}
    }

    /** Record a status for every skipped task, in the order in which the skips were found. */
    method MarkSkipped(observed: map<Name, Phase>, skipped: seq<Name>, ghost order: seq<Name>)
      returns (phases: map<Name, Phase>, statuses: map<Name, NodeStatus>)
      requires WellFormed(tasks) && GraphOf(tasks).IsTopologicalOrder(order)
      requires skipped == Keep(order, GraphOf(tasks).Blocked(observed))
      ensures phases == GraphOf(tasks).Effective(observed)
      ensures statuses == SkipStatuses(GraphOf(tasks).Blocked(observed), GraphOf(tasks).Effective(observed))
    {
      ghost var final := GraphOf(tasks).Effective(observed);
      SkippedSet(observed, skipped, order);
      phases, statuses := observed, map[];
      for k := 0 to |skipped|
        invariant phases == Marked(observed, Elements(skipped[..k]))
        invariant statuses == SkipStatuses(Elements(skipped[..k]), final)
      {
        var n := skipped[k];
        MarkNext(observed, skipped, order, k);
        statuses := statuses[n := SkippedStatus(n, GraphOf(tasks).dependencies[n], phases)];
        phases := phases[n := Skipped];
      }
      assert skipped[..|skipped|] == skipped;
    }

    lemma MarkNext(observed: map<Name, Phase>, skipped: seq<Name>, order: seq<Name>, k: nat)
      requires WellFormed(tasks) && GraphOf(tasks).IsTopologicalOrder(order)
      requires skipped == Keep(order, GraphOf(tasks).Blocked(observed)) && k < |skipped|
      ensures skipped[k] in GraphOf(tasks).dependencies
      ensures var final, n := GraphOf(tasks).Effective(observed), skipped[k];
              var phases := Marked(observed, Elements(skipped[..k]));
              && Marked(observed, Elements(skipped[..k + 1])) == phases[n := Skipped]
              && SkipStatuses(Elements(skipped[..k + 1]), final)
                 == SkipStatuses(Elements(skipped[..k]), final)[
                      n := SkippedStatus(n, GraphOf(tasks).dependencies[n], phases)]
    {
      var graph, n, before := GraphOf(tasks), skipped[k], Elements(skipped[..k]);
      SkippedSet(observed, skipped, order);
      assert n in Elements(skipped);
      ElementsPrefix(skipped, k);
      MarkedNext(observed, before, n);
      MarkOne(graph.Effective(observed), before, n);
      DependenciesMarked(observed, order, skipped, k);
      StatusByDependencies(n, graph.dependencies[n], Marked(observed, before), graph.Effective(observed));
    }

    static lemma MarkedNext(observed: map<Name, Phase>, skipped: set<Name>, n: Name)
      ensures Marked(observed, skipped + {n}) == Marked(observed, skipped)[n := Skipped]
    {
    }

    static lemma StatusByDependencies(n: Name, dependencies: seq<Name>, a: map<Name, Phase>, b: map<Name, Phase>)
      requires Restrict(a, dependencies) == Restrict(b, dependencies)
      ensures SkippedStatus(n, dependencies, a) == SkippedStatus(n, dependencies, b)
    {
    }

    lemma SkippedSet(observed: map<Name, Phase>, skipped: seq<Name>, order: seq<Name>)
      requires WellFormed(tasks) && GraphOf(tasks).IsTopologicalOrder(order)
      requires skipped == Keep(order, GraphOf(tasks).Blocked(observed))
      ensures Elements(skipped) == GraphOf(tasks).Blocked(observed)
      ensures Marked(observed, Elements(skipped)) == GraphOf(tasks).Effective(observed)
    {
      WellFormedGraph(tasks);
      GraphOf(tasks).KeptBlocked(observed, order);
    }

    /** When a skip is recorded, the phases of the task's dependencies are final. */
    lemma DependenciesMarked(observed: map<Name, Phase>, order: seq<Name>, skipped: seq<Name>, k: nat)
      requires WellFormed(tasks) && GraphOf(tasks).IsTopologicalOrder(order)
      requires skipped == Keep(order, GraphOf(tasks).Blocked(observed)) && k < |skipped|
      requires skipped[k] in GraphOf(tasks).dependencies
      ensures Restrict(Marked(observed, Elements(skipped[..k])), GraphOf(tasks).dependencies[skipped[k]])
           == Restrict(GraphOf(tasks).Effective(observed), GraphOf(tasks).dependencies[skipped[k]])
    {
      var graph := GraphOf(tasks);
      var blocked := graph.Blocked(observed);
      KeepElements(order, blocked);
      forall d | d in graph.dependencies[skipped[k]]
        ensures d in blocked <==> d in Elements(skipped[..k])
      {
        if d in blocked {
          assert graph.DependsOn(skipped[k], d);
          graph.KeptDependencyFirst(order, blocked, k, d);
        }
        if d in Elements(skipped[..k]) {
          assert d in Elements(skipped);
        }
      }
    }

    /** The results that a task consumes, or None when one of them is missing. */
    method GatherResults(n: Name, listing: map<Name, Task>) returns (results: Option<map<Name, string>>)
      requires n in ByName(tasks)
      ensures results.Some? <==> HasResults(n, listing)
      ensures results.Some? ==> results.value == Results(n, listing)
    {
      var from := ByName(tasks)[n].from;
      var found: map<Name, string> := map[];
      for k := 0 to |from|
        invariant forall s | s in from[..k] :: s in listing && listing[s].result.Some?
        invariant found == map s | s in from[..k] :: listing[s].result.value
      {
        var s := from[k];
        assert s in from;
        if s !in listing || listing[s].result.None? {
          return None;
        }
        assert from[..k + 1] == from[..k] + [s];
        found := found[s := listing[s].result.value];
      }
      assert from[..|from|] == from;
      return Some(found);
    }

    /** Create the ready Tasks whose inputs are available; an existing Task is left alone. */
    method CreateReady(listing: map<Name, Task>, ready: seq<Name>, api: ApiServer) returns (created: nat)
      requires forall n | n in ready :: n in ByName(tasks)
      modifies api`tasks
      ensures api.tasks == CreateAll(old(api.tasks), ready, listing)
      ensures created == |api.tasks| - |old(api.tasks)|
    {
      created := 0;
      for k := 0 to |ready|
        invariant api.tasks == CreateAll(old(api.tasks), ready[..k], listing)
        invariant created == |api.tasks| - |old(api.tasks)|
      {
        var n := ready[k];
        assert ready[..k + 1][..k] == ready[..k];
        var results := GatherResults(n, listing);
        if results.Some? {
          var prompt := ResolveTaskPrompt(ByName(tasks)[n], results.value);
          var isNew := api.CreateTask(n, prompt);
          if isNew {
            created := created + 1;
          }
        }
      }
      assert ready[..|ready|] == ready;
    }

    /** First half of a reconciliation: the phases it acts on and the skips it reports. */
    method PropagateSkips(graph: Graph, listing: map<Name, Task>, body: Status)
      returns (phases: map<Name, Phase>, skips: map<Name, NodeStatus>)
      requires Valid() && graph == GraphOf(tasks) && graph.Valid()
      ensures phases == Effective(listing, body)
      ensures skips == SkipStatuses(Skips(listing, body), Effective(listing, body))
    {
      var observed := MergePersistedSkips(listing, body);
      var skipped, order := graph.FindSkippedTasks(observed);
      phases, skips := MarkSkipped(observed, skipped.value, order);
    }

    /** Second half of a reconciliation: aggregate the statuses and write what changed. */
    method WriteStatus(listing: map<Name, Task>, body: Status, skips: map<Name, NodeStatus>, api: ApiServer)
      requires skips == SkipStatuses(Skips(listing, body), Effective(listing, body))
      modifies api`status
      ensures api.status == Write(old(api.status), PatchTo(body, Desired(listing, body)))
    {
      var nodes := BuildWorkflowTaskStatuses(listing, body);
      nodes := nodes + skips;
      var phase := AggregatePhase(Names(tasks), nodes);
      var patch := PatchWorkflowStatus(body, phase, |tasks|, nodes);
      if patch.Some? {
        api.PatchStatus(patch.value);
      }
    }

    /** One reconciliation, from reading the Tasks to writing the status, with no other
        writer in between. The body of the Workflow may have been read earlier. */
    method ReconcileWorkflow(body: Status, api: ApiServer) returns (r: Result<nat, GraphError>)
      modifies api
      ensures r.Success? <==> Valid()
      ensures r.Failure? ==> Justifies(r.error, tasks) && api.tasks == old(api.tasks) && api.status == old(api.status)
      ensures r.Success? ==>
                && r.value == |api.tasks| - |old(api.tasks)|
                && api.tasks == AfterCreates(old(api.tasks), old(api.tasks), body)
                && api.status == Write(old(api.status), PatchTo(body, Desired(old(api.tasks), body)))
    {
      var built := BuildWorkflowGraph(tasks);
      if built.Failure? {
        return Failure(built.error);
      }
      var listing := api.tasks;
      var phases, skips := PropagateSkips(built.value, listing, body);
      var ready := built.value.FindReadyTasks(phases);
      ReadyAreDeclared(listing, body);
      var created := CreateReady(listing, ready, api);
      WriteStatus(listing, body, skips, api);
      return Success(created);
    }

    lemma ReadyAreDeclared(listing: map<Name, Task>, body: Status)
      ensures forall n | n in ReadyList(listing, body) :: n in ByName(tasks)
    {
      var ready := GraphOf(tasks).Ready(Effective(listing, body));
      KeepElements(Names(tasks), ready);
      assert forall n | n in Keep(Names(tasks), ready) :: n in Elements(Keep(Names(tasks), ready));
    }
  }

  /** The part of the Kubernetes API that holds one Workflow: its Tasks and its status. */
  class ApiServer {
    var tasks: map<Name, Task>
    var status: Status

    constructor ()
      ensures tasks == map[] && status == Status(None, None, map[])
    {
      tasks, status := map[], Status(None, None, map[]);
    }

    /** Creation answers 409 when the name is taken. */
    method CreateTask(n: Name, prompt: string) returns (created: bool)
      modifies this`tasks
      ensures created == (n !in old(tasks))
      ensures tasks == if created then old(tasks)[n := Task(prompt, Pending, None)] else old(tasks)
    {
      created := n !in tasks;
      if created {
        tasks := tasks[n := Task(prompt, Pending, None)];
      }
    }

    method PatchStatus(patch: Patch)
      modifies this`status
      ensures status == ApplyPatch(old(status), patch)
    {
      status := ApplyPatch(status, patch);
    }
  }
}
