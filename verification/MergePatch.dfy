/** JSON merge patches as section 2 of RFC 7396 defines them, and the status patches of the
    workflow controller read as such documents. */
module MergePatch {
  import opened Wrappers
  import opened WorkflowGraph
  import opened WorkflowReconcile

  /** The member names that occur in a status: fixed field names, and task names under `tasks`. */
  datatype Key =
    | PhaseKey | TaskCountKey | TasksKey | TaskRefKey | ReasonKey | MessageKey | NameKey | TaskKey(task: Name)

  datatype Json = Null | Text(text: string) | Number(number: int) | Object(fields: map<Key, Json>)

  /** The MergePatch procedure of RFC 7396; an absent target counts as Null. */
  function Merge(target: Json, patch: Json): Json
    decreases patch
  {
    if !patch.Object? then patch
    else
      var fields := if target.Object? then target.fields else map[];
      Object(map k | k in fields.Keys + patch.fields.Keys && (k in patch.fields ==> patch.fields[k] != Null) ::
               if k !in patch.fields then fields[k]
               else Merge(if k in fields then fields[k] else Null, patch.fields[k]))
  }

  /** The value of a member; absent members read as Null. */
  function Lookup(document: Json, k: Key): Json {
    if document.Object? && k in document.fields then document.fields[k] else Null
  }

  predicate NoNulls(document: Json) {
    document.Object? && forall k | k in document.fields :: document.fields[k] != Null
  }

  lemma SameObject(a: Json, b: Json)
    requires NoNulls(a) && NoNulls(b) && forall k :: Lookup(a, k) == Lookup(b, k)
    ensures a == b
  {
    forall k ensures k in a.fields <==> k in b.fields {
      assert Lookup(a, k) == Lookup(b, k);
    }
    forall k | k in a.fields ensures a.fields[k] == b.fields[k] {
      assert Lookup(a, k) == Lookup(b, k);
    }
  }

  /** RFC 7396 member by member. */
  lemma MergeLookup(target: Json, patch: Json, k: Key)
    requires patch.Object?
    ensures Lookup(Merge(target, patch), k)
         == if k !in patch.fields then Lookup(target, k)
            else if patch.fields[k] == Null then Null
            else Merge(Lookup(target, k), patch.fields[k])
  {}

  lemma {:induction false} MergeHasNoNulls(target: Json, patch: Json)
    requires patch.Object? && (target == Null || NoNulls(target))
    ensures NoNulls(Merge(target, patch))
  {}

  // ---------- The status as a JSON document ----------

  function Member(key: Key, value: Option<Json>): map<Key, Json> {
    if value.Some? then map[key := value.value] else map[]
  }

  function TextOf(value: Option<string>): Option<Json> {
    if value.Some? then Some(Text(value.value)) else None
  }

  function Reference(name: string): Json {
    Object(map[NameKey := Text(name)])
  }

  function ReferenceOf(value: Option<string>): Option<Json> {
    if value.Some? then Some(Reference(value.value)) else None
  }

  function NodeDocument(node: NodeStatus): Json {
    Object(map[PhaseKey := Text(PhaseText(node.phase))] + Member(TaskRefKey, ReferenceOf(node.taskRef))
           + Member(ReasonKey, TextOf(node.reason)) + Member(MessageKey, TextOf(node.message)))
  }

  function TasksDocument(tasks: map<Name, NodeStatus>): Json {
    Object(map k: Key | k in (set n | n in tasks :: TaskKey(n)) :: NodeDocument(tasks[k.task]))
  }

  function StatusObject(phase: Option<Json>, taskCount: Option<Json>, tasks: Json): Json {
    Object(map[TasksKey := tasks] + Member(PhaseKey, phase) + Member(TaskCountKey, taskCount))
  }

  function PhaseOf(phase: Option<Phase>): Option<Json> {
    if phase.Some? then Some(Text(PhaseText(phase.value))) else None
  }

  function CountOf(count: Option<nat>): Option<Json> {
    if count.Some? then Some(Number(count.value)) else None
  }

  function StatusDocument(status: Status): Json {
    StatusObject(PhaseOf(status.phase), CountOf(status.taskCount), TasksDocument(status.tasks))
  }

  function TasksPatchDocument(tasks: map<Name, Option<NodeStatus>>): Json {
    Object(map k: Key | k in (set n | n in tasks :: TaskKey(n)) ::
             if tasks[k.task].Some? then NodeDocument(tasks[k.task].value) else Null)
  }

  function PatchDocument(patch: Patch): Json {
    Object(map[PhaseKey := Text(PhaseText(patch.phase)), TaskCountKey := Number(patch.taskCount),
               TasksKey := TasksPatchDocument(patch.tasks)])
  }

  // ---------- The two readings agree ----------

  lemma MergeReference(target: Json, name: string)
    requires target == Null || exists other :: target == Reference(other)
    ensures Merge(target, Reference(name)) == Reference(name)
  {
    assert Merge(target, Reference(name)).fields.Keys == {NameKey};
  }

  function NodeMember(node: NodeStatus, k: Key): Json {
    match k
    case PhaseKey => Text(PhaseText(node.phase))
    case TaskRefKey => if node.taskRef.Some? then Reference(node.taskRef.value) else Null
    case ReasonKey => if node.reason.Some? then Text(node.reason.value) else Null
    case MessageKey => if node.message.Some? then Text(node.message.value) else Null
    case _ => Null
  }

  lemma NodeLookup(node: NodeStatus, k: Key)
    ensures Lookup(NodeDocument(node), k) == NodeMember(node, k)
    ensures NoNulls(NodeDocument(node))
  {}

  lemma MergeNodeMember(current: NodeStatus, change: NodeStatus, k: Key)
    ensures Lookup(Merge(NodeDocument(current), NodeDocument(change)), k)
         == Lookup(NodeDocument(MergeNode(current, change)), k)
  {
    NodeLookup(MergeNode(current, change), k);
    MergeLookup(NodeDocument(current), NodeDocument(change), k);
    NodeLookup(current, k);
    NodeLookup(change, k);
    if k == TaskRefKey && change.taskRef.Some? {
      MergeReference(NodeMember(current, k), change.taskRef.value);
    }
  }

  lemma MergeNodeDocument(current: NodeStatus, change: NodeStatus)
    ensures Merge(NodeDocument(current), NodeDocument(change)) == NodeDocument(MergeNode(current, change))
  {
    var merged, expected := Merge(NodeDocument(current), NodeDocument(change)),
                            NodeDocument(MergeNode(current, change));
    NodeLookup(current, PhaseKey);
    NodeLookup(MergeNode(current, change), PhaseKey);
    MergeHasNoNulls(NodeDocument(current), NodeDocument(change));
    forall k ensures Lookup(merged, k) == Lookup(expected, k) {
      MergeNodeMember(current, change, k);
    }
    SameObject(merged, expected);
  }

  lemma NewNodeDocument(change: NodeStatus)
    ensures Merge(Null, NodeDocument(change)) == NodeDocument(change)
  {
    MergeHasNoNulls(Null, NodeDocument(change));
    forall k ensures Lookup(Merge(Null, NodeDocument(change)), k) == Lookup(NodeDocument(change), k) {
      MergeLookup(Null, NodeDocument(change), k);
      NodeLookup(change, k);
      if k == TaskRefKey && change.taskRef.Some? {
        MergeReference(Null, change.taskRef.value);
      }
    }
    SameObject(Merge(Null, NodeDocument(change)), NodeDocument(change));
  }

  lemma TasksLookup(tasks: map<Name, NodeStatus>, k: Key)
    ensures Lookup(TasksDocument(tasks), k)
         == if k.TaskKey? && k.task in tasks then NodeDocument(tasks[k.task]) else Null
    ensures NoNulls(TasksDocument(tasks))
  {}

  lemma TasksPatchLookup(tasks: map<Name, Option<NodeStatus>>, k: Key)
    ensures k in TasksPatchDocument(tasks).fields <==> k.TaskKey? && k.task in tasks
    ensures k.TaskKey? && k.task in tasks ==>
              (TasksPatchDocument(tasks).fields[k]
               == if tasks[k.task].Some? then NodeDocument(tasks[k.task].value) else Null)
  {}

  lemma MergeTasksMember(current: Status, patch: Patch, k: Key)
    ensures Lookup(Merge(TasksDocument(current.tasks), TasksPatchDocument(patch.tasks)), k)
         == Lookup(TasksDocument(ApplyPatch(current, patch).tasks), k)
  {
    MergeLookup(TasksDocument(current.tasks), TasksPatchDocument(patch.tasks), k);
    TasksLookup(current.tasks, k);
    TasksLookup(ApplyPatch(current, patch).tasks, k);
    TasksPatchLookup(patch.tasks, k);
    if k.TaskKey? && k.task in patch.tasks && patch.tasks[k.task].Some? {
      if k.task in current.tasks {
        MergeNodeDocument(current.tasks[k.task], patch.tasks[k.task].value);
      } else {
        NewNodeDocument(patch.tasks[k.task].value);
      }
    }
  }

  lemma MergeTasks(current: Status, patch: Patch)
    ensures Merge(TasksDocument(current.tasks), TasksPatchDocument(patch.tasks))
         == TasksDocument(ApplyPatch(current, patch).tasks)
  {
    var merged, expected := Merge(TasksDocument(current.tasks), TasksPatchDocument(patch.tasks)),
                            TasksDocument(ApplyPatch(current, patch).tasks);
    TasksLookup(current.tasks, TasksKey);
    TasksLookup(ApplyPatch(current, patch).tasks, TasksKey);
    MergeHasNoNulls(TasksDocument(current.tasks), TasksPatchDocument(patch.tasks));
    forall k ensures Lookup(merged, k) == Lookup(expected, k) {
      MergeTasksMember(current, patch, k);
    }
    SameObject(merged, expected);
  }

  lemma StatusLookup(phase: Option<Json>, taskCount: Option<Json>, tasks: Json)
    requires tasks != Null && phase != Some(Null) && taskCount != Some(Null)
    ensures NoNulls(StatusObject(phase, taskCount, tasks))
    ensures Lookup(StatusObject(phase, taskCount, tasks), PhaseKey) == if phase.Some? then phase.value else Null
    ensures Lookup(StatusObject(phase, taskCount, tasks), TaskCountKey)
         == if taskCount.Some? then taskCount.value else Null
    ensures Lookup(StatusObject(phase, taskCount, tasks), TasksKey) == tasks
    ensures forall k | k != PhaseKey && k != TaskCountKey && k != TasksKey ::
              Lookup(StatusObject(phase, taskCount, tasks), k) == Null
  {}

  /** Merging a complete patch replaces phase and count, and merges the tasks. */
  lemma MergeStatus(target: Json, phase: Json, count: Json, tasks: Json)
    requires NoNulls(target) && !phase.Object? && !count.Object? && phase != Null && count != Null && tasks.Object?
    requires forall k | k != PhaseKey && k != TaskCountKey && k != TasksKey :: Lookup(target, k) == Null
    ensures Merge(target, Object(map[PhaseKey := phase, TaskCountKey := count, TasksKey := tasks]))
         == StatusObject(Some(phase), Some(count), Merge(Lookup(target, TasksKey), tasks))
  {
    var patch := Object(map[PhaseKey := phase, TaskCountKey := count, TasksKey := tasks]);
    var expected := StatusObject(Some(phase), Some(count), Merge(Lookup(target, TasksKey), tasks));
    StatusLookup(Some(phase), Some(count), Merge(Lookup(target, TasksKey), tasks));
    MergeHasNoNulls(target, patch);
    forall k ensures Lookup(Merge(target, patch), k) == Lookup(expected, k) {
      MergeLookup(target, patch, k);
    }
    SameObject(Merge(target, patch), expected);
  }

  /** The API server's merge of a status patch is the one the controller model uses. */
  lemma ApplyPatchIsMerge(current: Status, patch: Patch)
    ensures Merge(StatusDocument(current), PatchDocument(patch)) == StatusDocument(ApplyPatch(current, patch))
  {
    StatusLookup(PhaseOf(current.phase), CountOf(current.taskCount), TasksDocument(current.tasks));
    MergeStatus(StatusDocument(current), Text(PhaseText(patch.phase)), Number(patch.taskCount),
                TasksPatchDocument(patch.tasks));
    MergeTasks(current, patch);
  }
}
