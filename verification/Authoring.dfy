/** The authoring boundary of digital employees (console/backend/src/agent_console/authoring.py):
    field diffs, draft revisions, and explicit human decisions. */
module Authoring {
  import opened Wrappers

  datatype RuntimePreference = RuntimePreference(requested: string, evidenceState: string)

  datatype Values = Values(
    definitionId: string, displayName: string, roleTitle: string, roleDescription: string,
    responsibilities: seq<string>, capabilities: seq<string>, prohibited: seq<string>,
    runtime: RuntimePreference, knowledge: Option<string>, statusCode: string, reasonCode: string)

  datatype Field =
    | DisplayName | RoleTitle | RoleDescription | Responsibilities | Capabilities | Prohibited
    | Runtime | Knowledge | StatusCode | ReasonCode

  datatype FieldValue =
    | NoValue
    | Text(text: string)
    | Items(items: seq<string>)
    | Preference(preference: RuntimePreference)

  datatype ChangeType = Add | Remove | Replace

  datatype FieldChange = FieldChange(field: Field, changeType: ChangeType, before: FieldValue, after: FieldValue)

  const DIFF_FIELDS: seq<Field> :=
    [DisplayName, RoleTitle, RoleDescription, Responsibilities, Capabilities, Prohibited,
     Runtime, Knowledge, StatusCode, ReasonCode]

  function Get(v: Values, f: Field): FieldValue {
    match f
    case DisplayName => Text(v.displayName)
    case RoleTitle => Text(v.roleTitle)
    case RoleDescription => Text(v.roleDescription)
    case Responsibilities => Items(v.responsibilities)
    case Capabilities => Items(v.capabilities)
    case Prohibited => Items(v.prohibited)
    case Runtime => Preference(v.runtime)
    case Knowledge => if v.knowledge.Some? then Text(v.knowledge.value) else NoValue
    case StatusCode => Text(v.statusCode)
    case ReasonCode => Text(v.reasonCode)
  }

  /** Put a value into a field; a value of the wrong kind is ignored. */
  function Put(v: Values, f: Field, x: FieldValue): Values {
    match (f, x)
    case (DisplayName, Text(t)) => v.(displayName := t)
    case (RoleTitle, Text(t)) => v.(roleTitle := t)
    case (RoleDescription, Text(t)) => v.(roleDescription := t)
    case (Responsibilities, Items(s)) => v.(responsibilities := s)
    case (Capabilities, Items(s)) => v.(capabilities := s)
    case (Prohibited, Items(s)) => v.(prohibited := s)
    case (Runtime, Preference(p)) => v.(runtime := p)
    case (Knowledge, Text(t)) => v.(knowledge := Some(t))
    case (Knowledge, NoValue) => v.(knowledge := None)
    case (StatusCode, Text(t)) => v.(statusCode := t)
    case (ReasonCode, Text(t)) => v.(reasonCode := t)
    case _ => v
  }

  // ---------- Diffs ----------

  function ChangeOf(f: Field, was: FieldValue, now: FieldValue): FieldChange {
    FieldChange(f, if was == NoValue then Add else if now == NoValue then Remove else Replace, was, now)
  }

  function Changes(before: Values, after: Values, fields: seq<Field>): seq<FieldChange> {
    if fields == [] then []
    else
      var last := |fields| - 1;
      var f := fields[last];
      Changes(before, after, fields[..last])
      + if Get(before, f) == Get(after, f) then [] else [ChangeOf(f, Get(before, f), Get(after, f))]
  }

  function Diff(before: Values, after: Values): seq<FieldChange> {
    Changes(before, after, DIFF_FIELDS)
  }

  method DeterministicDiff(before: Values, after: Values) returns (changes: seq<FieldChange>)
    ensures changes == Diff(before, after)
  {
    changes := [];
    for i := 0 to |DIFF_FIELDS|
      invariant changes == Changes(before, after, DIFF_FIELDS[..i])
    {
      var f := DIFF_FIELDS[i];
      var was, now := Get(before, f), Get(after, f);
      assert DIFF_FIELDS[..i + 1][..i] == DIFF_FIELDS[..i];
      if was != now {
        var changeType := if was == NoValue then Add else if now == NoValue then Remove else Replace;
        changes := changes + [FieldChange(f, changeType, was, now)];
      }
    }
    assert DIFF_FIELDS[..|DIFF_FIELDS|] == DIFF_FIELDS;
  }

  /** Replay a diff on top of some values. */
  function Patch(v: Values, changes: seq<FieldChange>): Values {
    if changes == [] then v
    else
      var last := |changes| - 1;
      Put(Patch(v, changes[..last]), changes[last].field, changes[last].after)
  }

  lemma PutGet(v: Values, w: Values, f: Field, g: Field)
    ensures Get(Put(v, f, Get(w, f)), g) == if g == f then Get(w, g) else Get(v, g)
    ensures Put(v, f, Get(w, f)).definitionId == v.definitionId
  {}

  lemma {:induction false} PatchGet(before: Values, after: Values, fields: seq<Field>, g: Field)
    ensures Patch(before, Changes(before, after, fields)).definitionId == before.definitionId
    ensures Get(Patch(before, Changes(before, after, fields)), g)
         == if g in fields then Get(after, g) else Get(before, g)
  {
    if fields != [] {
      var last := |fields| - 1;
      var f, rest := fields[last], Changes(before, after, fields[..last]);
      PatchGet(before, after, fields[..last], g);
      assert fields == fields[..last] + [f];
      if Get(before, f) == Get(after, f) {
        assert Changes(before, after, fields) == rest;
      } else {
        var changes := Changes(before, after, fields);
        assert changes[..|changes| - 1] == rest;
        PutGet(Patch(before, rest), after, f, g);
      }
    }
  }

  lemma SameValues(v: Values, w: Values)
    requires v.definitionId == w.definitionId && forall f :: Get(v, f) == Get(w, f)
    ensures v == w
  {
    assert Get(v, DisplayName) == Get(w, DisplayName) && Get(v, RoleTitle) == Get(w, RoleTitle);
    assert Get(v, RoleDescription) == Get(w, RoleDescription) && Get(v, Responsibilities) == Get(w, Responsibilities);
    assert Get(v, Capabilities) == Get(w, Capabilities) && Get(v, Prohibited) == Get(w, Prohibited);
    assert Get(v, Runtime) == Get(w, Runtime) && Get(v, Knowledge) == Get(w, Knowledge);
    assert Get(v, StatusCode) == Get(w, StatusCode) && Get(v, ReasonCode) == Get(w, ReasonCode);
  }

  lemma AllFields(f: Field)
    ensures f in DIFF_FIELDS
  {
    var i := match f
      case DisplayName => 0 case RoleTitle => 1 case RoleDescription => 2 case Responsibilities => 3
      case Capabilities => 4 case Prohibited => 5 case Runtime => 6 case Knowledge => 7
      case StatusCode => 8 case ReasonCode => 9;
    assert DIFF_FIELDS[i] == f;
  }

  /** Replaying the diff of two revisions of a definition on the first gives the second. */
  lemma DiffRoundTrip(before: Values, after: Values)
    requires before.definitionId == after.definitionId
    ensures Patch(before, Diff(before, after)) == after
  {
    forall f ensures Get(Patch(before, Diff(before, after)), f) == Get(after, f) {
      AllFields(f);
      PatchGet(before, after, DIFF_FIELDS, f);
    }
    PatchGet(before, after, DIFF_FIELDS, DisplayName);
    SameValues(Patch(before, Diff(before, after)), after);
  }

  /** Undo a diff on top of some values. */
  function Unpatch(v: Values, changes: seq<FieldChange>): Values {
    if changes == [] then v
    else
      var last := |changes| - 1;
      Put(Unpatch(v, changes[..last]), changes[last].field, changes[last].before)
  }

  lemma {:induction false} UnpatchGet(before: Values, after: Values, fields: seq<Field>, g: Field)
    ensures Unpatch(after, Changes(before, after, fields)).definitionId == after.definitionId
    ensures Get(Unpatch(after, Changes(before, after, fields)), g)
         == if g in fields then Get(before, g) else Get(after, g)
  {
    if fields != [] {
      var last := |fields| - 1;
      var f, rest := fields[last], Changes(before, after, fields[..last]);
      UnpatchGet(before, after, fields[..last], g);
      assert fields == fields[..last] + [f];
      if Get(before, f) == Get(after, f) {
        assert Changes(before, after, fields) == rest;
      } else {
        var changes := Changes(before, after, fields);
        assert changes[..|changes| - 1] == rest;
        PutGet(Unpatch(after, rest), before, f, g);
      }
    }
  }

  /** Undoing the diff of two revisions of a definition on the second gives the first. */
  lemma DiffReverses(before: Values, after: Values)
    requires before.definitionId == after.definitionId
    ensures Unpatch(after, Diff(before, after)) == before
  {
    forall f ensures Get(Unpatch(after, Diff(before, after)), f) == Get(before, f) {
      AllFields(f);
      UnpatchGet(before, after, DIFF_FIELDS, f);
    }
    UnpatchGet(before, after, DIFF_FIELDS, DisplayName);
    SameValues(Unpatch(after, Diff(before, after)), before);
  }

  /** The place of a field in a diff. */
  function Rank(f: Field): nat {
    match f
    case DisplayName => 0
    case RoleTitle => 1
    case RoleDescription => 2
    case Responsibilities => 3
    case Capabilities => 4
    case Prohibited => 5
    case Runtime => 6
    case Knowledge => 7
    case StatusCode => 8
    case ReasonCode => 9
  }

  /** The values of a field, as the definition names them. */
  predicate Holds(v: Values, f: Field, x: FieldValue) {
    match f
    case DisplayName => x == Text(v.displayName)
    case RoleTitle => x == Text(v.roleTitle)
    case RoleDescription => x == Text(v.roleDescription)
    case Responsibilities => x == Items(v.responsibilities)
    case Capabilities => x == Items(v.capabilities)
    case Prohibited => x == Items(v.prohibited)
    case Runtime => x == Preference(v.runtime)
    case Knowledge => if v.knowledge.None? then x == NoValue else x == Text(v.knowledge.value)
    case StatusCode => x == Text(v.statusCode)
    case ReasonCode => x == Text(v.reasonCode)
  }

  /** What one entry of a diff says: the two values of its field, which differ, and how. */
  predicate EntryMeans(before: Values, after: Values, c: FieldChange) {
    && Holds(before, c.field, c.before) && Holds(after, c.field, c.after) && c.before != c.after
    && (c.changeType == Add <==> c.before == NoValue)
    && (c.changeType == Remove <==> c.after == NoValue)
    && (c.changeType != Replace ==> c.field == Knowledge)
  }

  lemma EntryOfDiff(before: Values, after: Values, f: Field)
    requires Get(before, f) != Get(after, f)
    ensures EntryMeans(before, after, ChangeOf(f, Get(before, f), Get(after, f)))
  {
  }

  lemma {:induction false} EntriesMean(before: Values, after: Values, fields: seq<Field>, c: FieldChange)
    requires c in Changes(before, after, fields)
    ensures EntryMeans(before, after, c) && c.field in fields
  {
    var last := |fields| - 1;
    var f := fields[last];
    if c in Changes(before, after, fields[..last]) {
      EntriesMean(before, after, fields[..last], c);
    } else {
      EntryOfDiff(before, after, f);
    }
  }

  lemma {:induction false} EntriesOrdered(before: Values, after: Values, fields: seq<Field>, i: nat, j: nat)
    requires forall k, l | 0 <= k < l < |fields| :: Rank(fields[k]) < Rank(fields[l])
    requires i < j < |Changes(before, after, fields)|
    ensures Rank(Changes(before, after, fields)[i].field) < Rank(Changes(before, after, fields)[j].field)
  {
    var last := |fields| - 1;
    var rest, cs := Changes(before, after, fields[..last]), Changes(before, after, fields);
    if j < |rest| {
      EntriesOrdered(before, after, fields[..last], i, j);
      assert cs[i] == rest[i] && cs[j] == rest[j];
    } else {
      assert cs[i] == rest[i] && rest[i] in rest && cs[j].field == fields[last];
      EntriesMean(before, after, fields[..last], rest[i]);
    }
  }

  lemma {:induction false} EntriesComplete(before: Values, after: Values, fields: seq<Field>, f: Field) returns (i: nat)
    requires f in fields && Get(before, f) != Get(after, f)
    ensures i < |Changes(before, after, fields)| && Changes(before, after, fields)[i].field == f
  {
    var last := |fields| - 1;
    if f == fields[last] {
      i := |Changes(before, after, fields)| - 1;
    } else {
      i := EntriesComplete(before, after, fields[..last], f);
    }
  }

  /** A diff has one entry for every field that differs and no other, in the fixed order; it shows both
      values, and only a knowledge reference can be added or removed. */
  lemma DiffMeans(before: Values, after: Values)
    ensures forall c | c in Diff(before, after) :: EntryMeans(before, after, c)
    ensures forall i, j | 0 <= i < j < |Diff(before, after)| ::
              Rank(Diff(before, after)[i].field) < Rank(Diff(before, after)[j].field)
    ensures forall f, x | Holds(before, f, x) && !Holds(after, f, x) :: HasEntry(Diff(before, after), f)
  {
    forall c | c in Diff(before, after) ensures EntryMeans(before, after, c) {
      EntriesMean(before, after, DIFF_FIELDS, c);
    }
    forall i, j | 0 <= i < j < |Diff(before, after)|
      ensures Rank(Diff(before, after)[i].field) < Rank(Diff(before, after)[j].field)
    {
      EntriesOrdered(before, after, DIFF_FIELDS, i, j);
    }
    forall f, x | Holds(before, f, x) && !Holds(after, f, x) ensures HasEntry(Diff(before, after), f) {
      AllFields(f);
      assert Get(before, f) == x && Get(after, f) != x;
      var i := EntriesComplete(before, after, DIFF_FIELDS, f);
    }
  }

  predicate HasEntry(changes: seq<FieldChange>, f: Field) {
    exists i | 0 <= i < |changes| :: changes[i].field == f
  }

  /** A diff is empty only between equal values. */
  lemma EmptyDiff(before: Values, after: Values)
    requires before.definitionId == after.definitionId
    ensures Diff(before, after) == [] <==> before == after
  {
    if Diff(before, after) == [] {
      DiffRoundTrip(before, after);
    } else {
      NoChanges(before, DIFF_FIELDS);
    }
  }

  lemma {:induction false} NoChanges(v: Values, fields: seq<Field>)
    ensures Changes(v, v, fields) == []
  {
    if fields != [] {
      NoChanges(v, fields[..|fields| - 1]);
    }
  }

  // ---------- Revisions ----------

  /** The identifier of a revision, a hash of its source and values taken to be injective. */
  datatype RevisionId = RevisionId(source: Option<RevisionId>, values: Values)

  datatype AuthoringState = Draft | ReviewRequired | Approved | Rejected | Superseded

  datatype Decision = Approve | Reject

  datatype Approval = Approval(actor: string, decision: Decision, decidedAt: int, source: RevisionId)

  datatype Revision = Revision(id: RevisionId, state: AuthoringState, diff: seq<FieldChange>,
                               aiAssisted: bool, approval: Option<Approval>)

  datatype AuthoringError =
    | MalformedInput | DefinitionIdMismatch | EmptyChange | NotFound | InvalidRevisionState | InvalidApproval
    | StaleSourceRevision | AlreadyDecided | SupersededRevision | HumanReviewRequired

  type Revisions = map<RevisionId, Revision>

  /** The revisions from the root to the given one, following sources. */
  function Lineage(id: RevisionId): seq<RevisionId> {
    if id.source.None? then [id] else Lineage(id.source.value) + [id]
  }

  predicate Open(r: Revision) {
    r.state == Draft || r.state == ReviewRequired
  }

  /** What is known of a stored revision when `effective` is the effective one. */
  ghost predicate RevisionSound(effective: RevisionId, all: Revisions, id: RevisionId)
    requires id in all
  {
    var r := all[id];
    && r.id == id
    && (r.state == Approved <==> id in Lineage(effective))
    && (Open(r) ==> id.source == Some(effective) && r.approval.None?)
    && (r.state == Superseded ==>
          id.source.Some? && id.source.value in Lineage(effective) && id.source.value != effective && r.approval.None?)
    && (r.state == Rejected ==> r.approval.Some?)
    && (id.source.None? ==> id == Lineage(effective)[0])
    && (id.source.Some? ==>
          && id.source.value in all
          && id.source.value.values.definitionId == id.values.definitionId
          && r.diff == Diff(id.source.value.values, id.values) && r.diff != [])
  }

  ghost predicate Sound(effective: RevisionId, all: Revisions) {
    && (forall a | a in Lineage(effective) :: a in all)
    && forall id {:trigger RevisionSound(effective, all, id)} | id in all :: RevisionSound(effective, all, id)
  }

  /** All revisions of a lineage lie below its last one. */
  lemma {:induction false} LineageMember(id: RevisionId, a: RevisionId)
    requires a in Lineage(id)
    ensures a == id || a < id
  {
    if a != id {
      assert a in Lineage(id.source.value);
      LineageMember(id.source.value, a);
    }
  }

  lemma {:induction false} LineageEnds(id: RevisionId)
    ensures Lineage(id) != [] && Lineage(id)[|Lineage(id)| - 1] == id && Lineage(id)[0].source.None?
    ensures id in Lineage(id)
  {
    if id.source.Some? {
      LineageEnds(id.source.value);
    }
  }

  /** The lineage is one linear chain: each revision is made from the one before it. */
  lemma {:induction false} LineageIsLinear(id: RevisionId, i: nat)
    requires i + 1 < |Lineage(id)|
    ensures Lineage(id)[i + 1].source == Some(Lineage(id)[i])
  {
    var before := Lineage(id.source.value);
    LineageEnds(id.source.value);
    if i + 1 < |before| {
      LineageIsLinear(id.source.value, i);
    }
  }

  /** Rebuild the values of a revision from the root by replaying stored diffs. */
  ghost function Replay(all: Revisions, id: RevisionId): Values
    requires forall a | a in Lineage(id) :: a in all
  {
    if id.source.None? then id.values
    else
      assert forall a | a in Lineage(id.source.value) :: a in Lineage(id);
      LineageEnds(id);
      Patch(Replay(all, id.source.value), all[id].diff)
  }

  /** Replaying the diffs along the lineage gives the values of the revision. */
  lemma {:induction false} ReplayRebuilds(effective: RevisionId, all: Revisions, id: RevisionId)
    requires Sound(effective, all) && forall a | a in Lineage(id) :: a in all
    ensures Replay(all, id) == id.values
  {
    LineageEnds(id);
    if id.source.Some? {
      assert forall a | a in Lineage(id.source.value) :: a in Lineage(id);
      ReplayRebuilds(effective, all, id.source.value);
      assert RevisionSound(effective, all, id);
      DiffRoundTrip(id.source.value.values, id.values);
    }
  }

  /** A revision made from the effective one is open or rejected: it was never approved and,
      since its source is still effective, never superseded. */
  lemma ChildOfEffective(effective: RevisionId, all: Revisions, id: RevisionId)
    requires Sound(effective, all) && id in all && id.source == Some(effective)
    ensures Open(all[id]) || all[id].state == Rejected
  {
    assert RevisionSound(effective, all, id);
    if all[id].state == Approved {
      LineageMember(effective, id);
    }
  }

  /** The approved revisions are exactly one linear chain from the root to the effective revision,
      every open draft comes from the effective one, and replaying the stored diffs along the
      chain rebuilds the effective values. */
  lemma ApprovedLineage(effective: RevisionId, all: Revisions)
    requires Sound(effective, all) && effective in all
    ensures var chain := Lineage(effective);
      && (forall id | id in all :: all[id].state == Approved <==> id in chain)
      && (forall id | id in chain :: id in all)
      && chain[0].source.None? && chain[|chain| - 1] == effective
      && (forall i | 0 <= i < |chain| - 1 :: chain[i + 1].source == Some(chain[i]))
      && (forall id | id in all && Open(all[id]) :: id.source == Some(effective))
      && Replay(all, effective) == effective.values
  {
    LineageEnds(effective);
    forall i | 0 <= i < |Lineage(effective)| - 1
      ensures Lineage(effective)[i + 1].source == Some(Lineage(effective)[i])
    {
      LineageIsLinear(effective, i);
    }
    forall id | id in all ensures RevisionSound(effective, all, id) {}
    ReplayRebuilds(effective, all, effective);
  }

  // ---------- Steps keep the lineage ----------

  lemma DraftKeepsSound(effective: RevisionId, all: Revisions, r: Revision)
    requires Sound(effective, all) && effective in all && r.id !in all && r.id.source == Some(effective)
    requires r.state == Draft && r.approval.None?
    requires r.id.values.definitionId == effective.values.definitionId
    requires r.diff == Diff(effective.values, r.id.values) && r.diff != []
    ensures Sound(effective, all[r.id := r])
  {
    var all' := all[r.id := r];
    forall id | id in all' ensures RevisionSound(effective, all', id) {
      if id != r.id {
        assert RevisionSound(effective, all, id);
      } else if id in Lineage(effective) {
        LineageMember(effective, id);
      }
    }
  }

  /** Changing an open revision to review or rejection. */
  lemma ChangeKeepsSound(effective: RevisionId, all: Revisions, r: Revision)
    requires Sound(effective, all) && r.id in all && Open(all[r.id]) && r.diff == all[r.id].diff
    requires (r.state == ReviewRequired && r.approval.None?) || (r.state == Rejected && r.approval.Some?)
    ensures Sound(effective, all[r.id := r])
  {
    var all' := all[r.id := r];
    assert RevisionSound(effective, all, r.id);
    forall id | id in all' ensures RevisionSound(effective, all', id) {
      assert RevisionSound(effective, all, id);
    }
  }

  function Supersede(r: Revision): Revision {
    if Open(r) then r.(state := Superseded) else r
  }

  /** Approval makes the revision effective and supersedes every revision still open. */
  function ApproveAll(all: Revisions, approved: Revision): Revisions {
    map id | id in all :: if id == approved.id then approved else Supersede(all[id])
  }

  lemma ApproveKeepsSound(effective: RevisionId, all: Revisions, r: Revision)
    requires Sound(effective, all) && effective in all && r.id in all && Open(all[r.id])
    requires r.diff == all[r.id].diff && r.state == Approved
    ensures Sound(r.id, ApproveAll(all, r))
  {
    var all' := ApproveAll(all, r);
    assert RevisionSound(effective, all, r.id);
    assert Lineage(r.id) == Lineage(effective) + [r.id];
    LineageEnds(effective);
    forall id | id in all' ensures RevisionSound(r.id, all', id) {
      assert RevisionSound(effective, all, id);
      if r.id in Lineage(effective) {
        LineageMember(effective, r.id);
      }
    }
  }

  // ---------- The backend ----------

  class AuthoringBackend {
    var effective: Revision
    var revisions: Revisions

    ghost predicate Valid()
      reads this
    {
      && effective.id in revisions && revisions[effective.id] == effective && effective.state == Approved
      && Sound(effective.id, revisions)
    }

    constructor (values: Values)
      ensures Valid() && effective.id == RevisionId(None, values)
    {
      var root := Revision(RevisionId(None, values), Approved, [], false, None);
      effective := root;
      revisions := map[root.id := root];
      new;
      assert RevisionSound(root.id, revisions, root.id);
    }

    /** Start a draft of the effective revision; the same candidate again gives the same revision.
        `candidate` is None when normalization rejects the input. */
    method CreateDraft(candidate: Option<Values>, aiAssisted: bool) returns (r: Result<Revision, AuthoringError>)
      requires Valid()
      modifies this`revisions
      ensures Valid()
      ensures r.Success? <==>
                && candidate.Some? && candidate.value.definitionId == effective.id.values.definitionId
                && candidate.value != effective.id.values
      ensures r.Failure? ==> revisions == old(revisions)
      ensures r.Success? ==>
                && r.value.id == RevisionId(Some(effective.id), candidate.value)
                && r.value.state in {Draft, ReviewRequired, Rejected}
                && revisions == old(revisions)[r.value.id := r.value]
                && (r.value.id in old(revisions) ==> revisions == old(revisions))
                && (r.value.id !in old(revisions) ==>
                      r.value
                      == Revision(r.value.id, Draft, Diff(effective.id.values, candidate.value), aiAssisted, None))
    {
      if candidate.None? {
        return Failure(MalformedInput);
      }
      var values := candidate.value;
      if values.definitionId != effective.id.values.definitionId {
        return Failure(DefinitionIdMismatch);
      }
      var diff := DeterministicDiff(effective.id.values, values);
      EmptyDiff(effective.id.values, values);
      if diff == [] {
        return Failure(EmptyChange);
      }
      var id := RevisionId(Some(effective.id), values);
      if id in revisions {
        ChildOfEffective(effective.id, revisions, id);
        assert RevisionSound(effective.id, revisions, id);
        return Success(revisions[id]);
      }
      var draft := Revision(id, Draft, diff, aiAssisted, None);
      DraftKeepsSound(effective.id, revisions, draft);
      revisions := revisions[id := draft];
      return Success(draft);
    }

    method RequestReview(id: RevisionId) returns (r: Result<Revision, AuthoringError>)
      requires Valid()
      modifies this`revisions
      ensures Valid()
      ensures r.Success? <==> id in old(revisions) && Open(old(revisions)[id])
      ensures r.Success? ==>
                r.value == old(revisions)[id].(state := ReviewRequired) && revisions == old(revisions)[id := r.value]
      ensures r.Failure? ==> revisions == old(revisions)
    {
      if id !in revisions {
        return Failure(NotFound);
      }
      var current := revisions[id];
      if current.state == ReviewRequired {
        return Success(current);
      }
      if current.state != Draft {
        return Failure(InvalidRevisionState);
      }
      assert RevisionSound(effective.id, revisions, id);
      var reviewed := current.(state := ReviewRequired);
      ChangeKeepsSound(effective.id, revisions, reviewed);
      OtherThanEffective(id);
      revisions := revisions[id := reviewed];
      return Success(reviewed);
    }

    lemma OtherThanEffective(id: RevisionId)
      requires Valid() && id in revisions && Open(revisions[id])
      ensures id != effective.id && id.source == Some(effective.id)
    {
      assert RevisionSound(effective.id, revisions, id);
    }

    /** A human decision. It changes something exactly once per revision: on the revision under
        review made from the effective one. `wellFormed` covers the checks of actor and time. */
    method Decide(id: RevisionId, approval: Approval, wellFormed: bool) returns (r: Result<Revision, AuthoringError>)
      requires Valid()
      modifies this
      ensures Valid()
      ensures r.Failure? ==> effective == old(effective) && revisions == old(revisions)
      ensures r.Success? <==>
                && id in old(revisions) && wellFormed && id.source == Some(approval.source)
                && (old(revisions)[id].approval == Some(approval) || old(revisions)[id].state == ReviewRequired)
      ensures r.Success? && old(revisions)[id].approval.Some? ==>
                && r.value == old(revisions)[id] && r.value.approval == Some(approval)
                && effective == old(effective) && revisions == old(revisions)
      ensures r.Success? && old(revisions)[id].approval.None? ==>
                && old(revisions)[id].state == ReviewRequired && approval.source == old(effective).id
                && r.value == old(revisions)[id].(state := if approval.decision == Approve then Approved else Rejected,
                                                  approval := Some(approval))
      ensures r.Success? && old(revisions)[id].approval.None? && approval.decision == Reject ==>
                effective == old(effective) && revisions == old(revisions)[id := r.value]
      ensures r.Success? && old(revisions)[id].approval.None? && approval.decision == Approve ==>
                effective == r.value && revisions == ApproveAll(old(revisions), r.value)
    {
      if id !in revisions {
        return Failure(NotFound);
      }
      var current := revisions[id];
      assert RevisionSound(effective.id, revisions, id);
      if !wellFormed {
        return Failure(InvalidApproval);
      }
      if id.source != Some(approval.source) {
        return Failure(StaleSourceRevision);
      }
      if current.approval.Some? {
        if current.approval == Some(approval) {
          return Success(current);
        }
        return Failure(AlreadyDecided);
      }
      if current.state == Superseded {
        return Failure(SupersededRevision);
      }
      if current.state != ReviewRequired {
        return Failure(HumanReviewRequired);
      }
      if id.source != Some(effective.id) {
        // An open revision always comes from the effective one: late superseding cannot happen.
        assert false;
      }
      var state := if approval.decision == Approve then Approved else Rejected;
      var terminal := current.(state := state, approval := Some(approval));
      OtherThanEffective(id);
      if approval.decision == Approve {
        ApproveKeepsSound(effective.id, revisions, terminal);
        revisions := SupersedeOpen(revisions[id := terminal]);
        assert revisions == ApproveAll(old(revisions), terminal);
        effective := terminal;
      } else {
        ChangeKeepsSound(effective.id, revisions, terminal);
        revisions := revisions[id := terminal];
      }
      return Success(terminal);
    }
  }

  /** The loop that supersedes every revision still open. */
  method SupersedeOpen(all: Revisions) returns (after: Revisions)
    ensures after == map id | id in all :: Supersede(all[id])
  {
    after := all;
    var left := all.Keys;
    while left != {}
      invariant left <= all.Keys
      invariant after == map id | id in all :: if id in left then all[id] else Supersede(all[id])
    {
      var id :| id in left;
      if Open(after[id]) {
        after := after[id := after[id].(state := Superseded)];
      }
      left := left - {id};
    }
  }

  // ---------- Every run ----------

  datatype Call =
    | DoCreateDraft(candidate: Option<Values>, aiAssisted: bool)
    | DoRequestReview(id: RevisionId)
    | DoDecide(id: RevisionId, approval: Approval, wellFormed: bool)

  /** Whatever calls are made of a new backend, and whether they succeed or not: the approved
      revisions are the lineage of the effective one, which starts at the values given first, every
      open draft comes from the effective one, and the stored diffs rebuild its values. */
  method Session(values: Values, calls: seq<Call>) returns (effective: RevisionId, all: Revisions)
    ensures (forall a | a in Lineage(effective) :: a in all) && Lineage(effective)[0] == RevisionId(None, values)
    ensures forall id | id in all :: all[id].state == Approved <==> id in Lineage(effective)
    ensures forall id | id in all && Open(all[id]) :: id.source == Some(effective)
    ensures Replay(all, effective) == effective.values
  {
    var backend := new AuthoringBackend(values);
    for i := 0 to |calls|
      invariant fresh(backend) && backend.Valid()
      invariant Lineage(backend.effective.id) != [] && Lineage(backend.effective.id)[0] == RevisionId(None, values)
    {
      match calls[i] {
        case DoCreateDraft(candidate, aiAssisted) =>
          var _ := backend.CreateDraft(candidate, aiAssisted);
        case DoRequestReview(id) =>
          var _ := backend.RequestReview(id);
        case DoDecide(id, approval, wellFormed) =>
          ghost var before := backend.effective.id;
          LineageEnds(before);
          if id in backend.revisions {
            assert RevisionSound(before, backend.revisions, id);
          }
          var _ := backend.Decide(id, approval, wellFormed);
          assert backend.effective.id == before || backend.effective.id.source == Some(before);
      }
    }
    effective, all := backend.effective.id, backend.revisions;
    ApprovedLineage(effective, all);
  }
}
