/** The lifecycle of agent definitions: the record of a definition and what the commands of the
    service make of it (console/backend/src/agent_console/agent_definition_service.py). */
module AgentDefinitions {
  import opened Wrappers

  type Id = nat          // identifiers are fresh uuids
  type Content = string  // normalized revision content

  /** The digest of a revision, taken to be injective: it is what it is computed from. */
  datatype Digest = Digest(definition: Id, revision: Id, predecessor: Option<Id>,
                           namespace: string, domain: string, content: Content)

  datatype RevisionState = Draft | Validated | HumanReviewed | Published

  datatype Revision = Revision(id: Id, predecessor: Option<Id>, state: RevisionState,
                               content: Content, digest: Digest, validated: bool)

  /** An approval; rejected reviews are not recorded. */
  datatype Review = Review(id: Id, revision: Id, digest: Digest)

  datatype Lifecycle = DraftStage | ValidatedStage | ReviewedStage | PublishedStage | Deprecated | Archived

  datatype Event =
    | DraftCreated | DraftEdited | DraftValidated | HumanReview | RevisionPublished | SuccessorCreated
    | LifecycleChanged(action: LifecycleAction)

  datatype Fact = Fact(event: Event, actor: string)

  datatype Record = Record(
    id: Id, namespace: string, domain: string, name: string, version: nat,
    lifecycle: Lifecycle, enabled: bool, archived: bool,
    draft: Option<Id>, published: Option<Id>,
    revisions: seq<Revision>, reviews: seq<Review>, facts: seq<Fact>, relationships: seq<string>)

  datatype Key = Key(namespace: string, domain: string, id: Id)

  datatype Failure =
    | NameRequired | InvalidContent | NotFound | Stale | Conflict | DraftRequired | PublishedRequired
    | BindingsInvalid | ValidationRequired | ExactDigestRequired | ReviewRejected | ExactReviewRequired
    | DraftAlreadyExists | ReasonRequired | ActionUnsupported | ProtectedOrReferenced | DanglingPointer

  datatype LifecycleAction = Enable | Disable | Deprecate | Archive | OtherAction

  /** A command on a stored definition. `content` is None when normalization rejects it,
      `bindings` tells whether the binding resolver accepts the draft, `reason` whether the
      given reason is not blank, and the identifiers are those that the command will use. */
  datatype Command =
    | Edit(content: Option<Content>, newId: Id)
    | Validate(bindings: bool)
    | ReviewDraft(digest: Digest, approve: bool, reason: bool, bindings: bool, newId: Id)
    | Publish(digest: Digest, reviewId: Id)
    | Successor(newId: Id)
    | ChangeLifecycle(action: LifecycleAction, reason: bool)

  function KeyOf(r: Record): Key {
    Key(r.namespace, r.domain, r.id)
  }

  function DigestOf(r: Record, id: Id, predecessor: Option<Id>, content: Content): Digest {
    Digest(r.id, id, predecessor, r.namespace, r.domain, content)
  }

  function NewDraft(r: Record, id: Id, predecessor: Option<Id>, content: Content): Revision {
    Revision(id, predecessor, Draft, content, DigestOf(r, id, predecessor, content), false)
  }

  /** The position of the first revision with the identifier, or the number of revisions. */
  function Find(revisions: seq<Revision>, id: Id): (i: nat)
    ensures i <= |revisions|
    ensures i < |revisions| ==> revisions[i].id == id
    ensures forall j | 0 <= j < i :: revisions[j].id != id
  {
    if revisions == [] || revisions[0].id == id then 0 else 1 + Find(revisions[1..], id)
  }

  predicate HasReview(reviews: seq<Review>, id: Id, digest: Digest) {
    reviews != [] && if reviews[0].id == id then reviews[0].digest == digest else HasReview(reviews[1..], id, digest)
  }

  /** The record of a new definition. */
  function NewRecord(namespace: string, domain: string, name: string, content: Content,
                     id: Id, revisionId: Id, actor: string): Record {
    var r := Record(id, namespace, domain, name, 1, DraftStage, true, false, Some(revisionId), None,
                    [], [], [Fact(DraftCreated, actor)], []);
    r.(revisions := [NewDraft(r, revisionId, None, content)])
  }

  function WithRevision(r: Record, i: nat, revision: Revision): Record
    requires i < |r.revisions|
  {
    r.(revisions := r.revisions[i := revision])
  }

  /** What a command makes of a loaded record, before the record is stored again. */
  function Apply(r: Record, c: Command): Result<Record, Failure> {
    match c
    case Edit(content, newId) =>
      if r.draft.None? then Failure(DraftRequired)
      else if Find(r.revisions, r.draft.value) == |r.revisions| then Failure(DanglingPointer)
      else if content.None? then Failure(InvalidContent)
      else Success(r.(revisions := r.revisions + [NewDraft(r, newId, r.draft, content.value)],
                      draft := Some(newId), lifecycle := DraftStage))
    case Validate(bindings) =>
      if r.draft.None? then Failure(DraftRequired)
      else
        var i := Find(r.revisions, r.draft.value);
        if i == |r.revisions| then Failure(DanglingPointer)
        else if !bindings then Failure(BindingsInvalid)
        else Success(WithRevision(r, i, r.revisions[i].(state := Validated, validated := true)).(
                       lifecycle := ValidatedStage))
    case ReviewDraft(digest, approve, reason, bindings, newId) =>
      if r.draft.None? then Failure(DraftRequired)
      else
        var i := Find(r.revisions, r.draft.value);
        if i == |r.revisions| then Failure(DanglingPointer)
        else if !bindings then Failure(BindingsInvalid)
        else if r.revisions[i].state != Validated then Failure(ValidationRequired)
        else if digest != r.revisions[i].digest then Failure(ExactDigestRequired)
        else if !approve || !reason then Failure(ReviewRejected)
        else Success(WithRevision(r, i, r.revisions[i].(state := HumanReviewed)).(
                       reviews := r.reviews + [Review(newId, r.revisions[i].id, digest)],
                       lifecycle := ReviewedStage))
    case Publish(digest, reviewId) =>
      if r.draft.None? then Failure(DraftRequired)
      else
        var i := Find(r.revisions, r.draft.value);
        if i == |r.revisions| then Failure(DanglingPointer)
        else if !HasReview(r.reviews, reviewId, digest) || r.revisions[i].digest != digest
                || r.revisions[i].state != HumanReviewed then Failure(ExactReviewRequired)
        else Success(WithRevision(r, i, r.revisions[i].(state := Published)).(
                       published := Some(r.revisions[i].id), draft := None, lifecycle := PublishedStage))
    case Successor(newId) =>
      if r.draft.Some? then Failure(DraftAlreadyExists)
      else if r.published.None? then Failure(PublishedRequired)
      else
        var i := Find(r.revisions, r.published.value);
        if i == |r.revisions| then Failure(DanglingPointer)
        else Success(r.(revisions := r.revisions + [NewDraft(r, newId, r.published, r.revisions[i].content)],
                        draft := Some(newId), lifecycle := DraftStage))
    case ChangeLifecycle(action, reason) =>
      if !reason then Failure(ReasonRequired)
      else match action
        case Enable => Success(r.(enabled := true))
        case Disable => Success(r.(enabled := false))
        case Deprecate =>
          if r.published.None? then Failure(PublishedRequired)
          else if Find(r.revisions, r.published.value) == |r.revisions| then Failure(DanglingPointer)
          else Success(r.(lifecycle := Deprecated))
        case Archive => Success(r.(archived := true, lifecycle := Archived))
        case OtherAction => Failure(ActionUnsupported)
  }

  function EventOf(c: Command): Event {
    match c
    case Edit(_, _) => DraftEdited
    case Validate(_) => DraftValidated
    case ReviewDraft(_, _, _, _, _) => HumanReview
    case Publish(_, _) => RevisionPublished
    case Successor(_) => SuccessorCreated
    case ChangeLifecycle(action, _) => LifecycleChanged(action)
  }

  /** The record that is stored when the command on `r` commits. */
  function Committed(r: Record, c: Command, actor: string): Record
    requires Apply(r, c).Success?
  {
    Apply(r, c).value.(version := r.version + 1, facts := r.facts + [Fact(EventOf(c), actor)])
  }

  predicate DeletionPermitted(r: Record) {
    r.published.None? && r.relationships == []
  }

  predicate Eligible(r: Record) {
    r.published.Some? && r.enabled && !r.archived && r.lifecycle != Deprecated && r.lifecycle != Archived
  }

  // ---------- The invariant of a record ----------

  /** A revision is reviewed when an approval names it and its digest. */
  predicate Reviewed(r: Record, v: Revision) {
    exists j | 0 <= j < |r.reviews| :: r.reviews[j].revision == v.id && r.reviews[j].digest == v.digest
  }

  predicate RevisionSound(r: Record, v: Revision) {
    && v.digest == DigestOf(r, v.id, v.predecessor, v.content)
    && (v.state != Draft ==> v.validated)
    && (v.state == HumanReviewed || v.state == Published ==> Reviewed(r, v))
  }

  predicate ReviewSound(r: Record, review: Review) {
    exists i | 0 <= i < |r.revisions| ::
      r.revisions[i].id == review.revision && r.revisions[i].digest == review.digest
  }

  predicate UniqueIds(r: Record) {
    forall i, j | 0 <= i < j < |r.revisions| :: r.revisions[i].id != r.revisions[j].id
  }

  predicate RecordSound(r: Record) {
    && UniqueIds(r)
    && (forall i {:trigger RevisionSound(r, r.revisions[i])} | 0 <= i < |r.revisions| ::
          RevisionSound(r, r.revisions[i]))
    && (forall j {:trigger ReviewSound(r, r.reviews[j])} | 0 <= j < |r.reviews| :: ReviewSound(r, r.reviews[j]))
    && (r.draft.Some? ==>
          var i := Find(r.revisions, r.draft.value);
          i < |r.revisions| && r.revisions[i].state != Published)
    && (r.published.Some? ==>
          var i := Find(r.revisions, r.published.value);
          i < |r.revisions| && r.revisions[i].state == Published)
    && (r.published.None? ==>
          r.draft.Some? && forall i | 0 <= i < |r.revisions| :: r.revisions[i].state != Published)
    && |r.facts| == r.version && r.version >= 1
  }

  /** The identifiers that a command brings are new. */
  predicate FreshIds(r: Record, c: Command) {
    c.Edit? || c.Successor? ==> forall i | 0 <= i < |r.revisions| :: r.revisions[i].id != c.newId
  }

  lemma NewRecordSound(namespace: string, domain: string, name: string, content: Content,
                       id: Id, revisionId: Id, actor: string)
    ensures RecordSound(NewRecord(namespace, domain, name, content, id, revisionId, actor))
  {
    var r := NewRecord(namespace, domain, name, content, id, revisionId, actor);
    assert r.revisions[0].id == revisionId;
  }

  /** The review that a publication accepts names the published revision itself, because the
      digest of a revision determines it. */
  lemma {:induction false} ReviewNamesDraft(r: Record, reviews: seq<Review>, reviewId: Id, i: nat)
    requires RecordSound(r) && i < |r.revisions| && HasReview(reviews, reviewId, r.revisions[i].digest)
    requires forall x | x in reviews :: x in r.reviews
    ensures exists x | x in reviews ::
              x.id == reviewId && x.revision == r.revisions[i].id && x.digest == r.revisions[i].digest
  {
    if reviews[0].id == reviewId {
      assert reviews[0] in r.reviews;
      var j :| 0 <= j < |r.reviews| && r.reviews[j] == reviews[0];
      assert ReviewSound(r, r.reviews[j]);
      var k :| 0 <= k < |r.revisions|
        && r.revisions[k].id == r.reviews[j].revision && r.revisions[k].digest == r.reviews[j].digest;
      assert RevisionSound(r, r.revisions[k]) && RevisionSound(r, r.revisions[i]);
    } else {
      ReviewNamesDraft(r, reviews[1..], reviewId, i);
    }
  }

  lemma FindUnique(r: Record, i: nat)
    requires UniqueIds(r) && i < |r.revisions|
    ensures Find(r.revisions, r.revisions[i].id) == i
  {}

  /** Appending reviews and changing the state of one revision keeps what is known of the others. */
  lemma RevisionSoundFrame(r: Record, r': Record, v: Revision)
    requires RevisionSound(r, v) && r.reviews <= r'.reviews
    requires r'.id == r.id && r'.namespace == r.namespace && r'.domain == r.domain
    ensures RevisionSound(r', v)
  {
    if Reviewed(r, v) {
      var j :| 0 <= j < |r.reviews| && r.reviews[j].revision == v.id && r.reviews[j].digest == v.digest;
      assert r'.reviews[j] == r.reviews[j];
    }
  }

  lemma ReviewSoundFrame(r: Record, r': Record, review: Review)
    requires ReviewSound(r, review) && |r.revisions| <= |r'.revisions|
    requires forall i | 0 <= i < |r.revisions| ::
               r'.revisions[i].id == r.revisions[i].id && r'.revisions[i].digest == r.revisions[i].digest
    ensures ReviewSound(r', review)
  {
    var i :| 0 <= i < |r.revisions| && r.revisions[i].id == review.revision && r.revisions[i].digest == review.digest;
    assert r'.revisions[i].id == review.revision;
  }

  /** A new draft behind the existing revisions. */
  lemma AddDraftSound(r: Record, r': Record, newId: Id)
    requires RecordSound(r) && forall i | 0 <= i < |r.revisions| :: r.revisions[i].id != newId
    requires |r'.revisions| == |r.revisions| + 1 && r'.revisions[..|r.revisions|] == r.revisions
    requires r'.revisions[|r.revisions|].id == newId && r'.revisions[|r.revisions|].state == Draft
    requires r'.revisions[|r.revisions|].digest
          == DigestOf(r, newId, r'.revisions[|r.revisions|].predecessor, r'.revisions[|r.revisions|].content)
    requires r'.id == r.id && r'.namespace == r.namespace && r'.domain == r.domain
    requires r'.reviews == r.reviews && r'.draft == Some(newId) && r'.published == r.published
    requires |r'.facts| == r'.version >= 1
    ensures RecordSound(r')
  {
    var n := |r.revisions|;
    assert forall i | 0 <= i < n :: r'.revisions[i] == r.revisions[i];
    forall i | 0 <= i <= n ensures RevisionSound(r', r'.revisions[i]) {
      if i < n {
        assert RevisionSound(r, r.revisions[i]);
        RevisionSoundFrame(r, r', r.revisions[i]);
      }
    }
    forall j | 0 <= j < |r'.reviews| ensures ReviewSound(r', r'.reviews[j]) {
      assert ReviewSound(r, r.reviews[j]);
      ReviewSoundFrame(r, r', r.reviews[j]);
    }
    FindUnique(r', n);
    if r.published.Some? {
      FindUnique(r', Find(r.revisions, r.published.value));
    }
  }

  /** The draft moves to another state; nothing else about the revisions changes. */
  lemma MoveDraftSound(r: Record, r': Record, i: nat)
    requires RecordSound(r) && i < |r.revisions| && r.draft == Some(r.revisions[i].id)
    requires |r'.revisions| == |r.revisions|
    requires forall k | 0 <= k < |r.revisions| && k != i :: r'.revisions[k] == r.revisions[k]
    requires r'.revisions[i].id == r.revisions[i].id && r'.revisions[i].digest == r.revisions[i].digest
    requires RevisionSound(r', r'.revisions[i])
    requires r'.id == r.id && r'.namespace == r.namespace && r'.domain == r.domain
    requires r.reviews <= r'.reviews
    requires forall j | |r.reviews| <= j < |r'.reviews| ::
               r'.reviews[j].revision == r.revisions[i].id && r'.reviews[j].digest == r.revisions[i].digest
    requires if r'.revisions[i].state == Published
             then r'.draft == None && r'.published == Some(r.revisions[i].id)
             else r'.draft == r.draft && r'.published == r.published
    requires |r'.facts| == r'.version >= 1
    ensures RecordSound(r')
  {
    FindUnique(r, i);
    forall k | 0 <= k < |r'.revisions| ensures RevisionSound(r', r'.revisions[k]) {
      if k != i {
        assert RevisionSound(r, r.revisions[k]);
        RevisionSoundFrame(r, r', r.revisions[k]);
      }
    }
    forall j | 0 <= j < |r'.reviews| ensures ReviewSound(r', r'.reviews[j]) {
      if j < |r.reviews| {
        assert ReviewSound(r, r.reviews[j]);
        ReviewSoundFrame(r, r', r.reviews[j]);
      } else {
        assert r'.revisions[i].id == r'.reviews[j].revision;
      }
    }
    assert UniqueIds(r') by {
      assert forall k | 0 <= k < |r.revisions| :: r'.revisions[k].id == r.revisions[k].id;
    }
    FindUnique(r', i);
    if r.published.Some? {
      FindUnique(r', Find(r.revisions, r.published.value));
    }
  }

  lemma NewDraftKeepsSound(r: Record, c: Command, actor: string)
    requires RecordSound(r) && Apply(r, c).Success? && FreshIds(r, c) && (c.Edit? || c.Successor?)
    ensures RecordSound(Committed(r, c, actor))
  {
    var r' := Committed(r, c, actor);
    assert r'.revisions[..|r.revisions|] == r.revisions;
    AddDraftSound(r, r', c.newId);
  }

  lemma DraftCommandKeepsSound(r: Record, c: Command, actor: string)
    requires RecordSound(r) && Apply(r, c).Success? && (c.Validate? || c.ReviewDraft? || c.Publish?)
    ensures RecordSound(Committed(r, c, actor))
  {
    var r' := Committed(r, c, actor);
    var i := Find(r.revisions, r.draft.value);
    assert RevisionSound(r, r.revisions[i]);
    if c.ReviewDraft? {
      assert r'.reviews[|r.reviews|].revision == r.revisions[i].id;
    } else if c.Publish? {
      RevisionSoundFrame(r, r', r.revisions[i]);
    }
    MoveDraftSound(r, r', i);
  }

  /** Every command that commits keeps the record sound. */
  lemma CommandKeepsSound(r: Record, c: Command, actor: string)
    requires RecordSound(r) && Apply(r, c).Success? && FreshIds(r, c)
    ensures RecordSound(Committed(r, c, actor))
  {
    if c.Edit? || c.Successor? {
      NewDraftKeepsSound(r, c, actor);
    } else if c.ChangeLifecycle? {
      LifecycleCommandKeepsSound(r, c, actor);
    } else {
      DraftCommandKeepsSound(r, c, actor);
    }
  }

  lemma LifecycleCommandKeepsSound(r: Record, c: Command, actor: string)
    requires RecordSound(r) && Apply(r, c).Success? && c.ChangeLifecycle?
    ensures RecordSound(Committed(r, c, actor))
  {
    LifecycleKeepsSound(r, Committed(r, c, actor));
  }

  lemma LifecycleKeepsSound(r: Record, r': Record)
    requires RecordSound(r) && r'.revisions == r.revisions && r'.reviews == r.reviews
    requires r'.id == r.id && r'.namespace == r.namespace && r'.domain == r.domain
    requires r'.draft == r.draft && r'.published == r.published && |r'.facts| == r'.version >= 1
    ensures RecordSound(r')
  {
    forall i | 0 <= i < |r'.revisions| ensures RevisionSound(r', r'.revisions[i]) {
      assert RevisionSound(r, r.revisions[i]);
      RevisionSoundFrame(r, r', r.revisions[i]);
    }
    forall j | 0 <= j < |r'.reviews| ensures ReviewSound(r', r'.reviews[j]) {
      assert ReviewSound(r, r.reviews[j]);
      ReviewSoundFrame(r, r', r.reviews[j]);
    }
  }

  /** What no command ever undoes. */
  predicate Preserves(r: Record, r': Record) {
    && KeyOf(r') == KeyOf(r) && r'.name == r.name && r'.relationships == r.relationships
    && |r.revisions| <= |r'.revisions|
    && (forall i {:trigger r'.revisions[i]} | 0 <= i < |r.revisions| ::
          && r'.revisions[i].id == r.revisions[i].id && r'.revisions[i].predecessor == r.revisions[i].predecessor
          && r'.revisions[i].content == r.revisions[i].content && r'.revisions[i].digest == r.revisions[i].digest
          && (r.revisions[i].state == Published ==> r'.revisions[i] == r.revisions[i]))
    && (r.published.Some? ==> r'.published.Some?)
    && (r.archived ==> r'.archived)
    && r.reviews <= r'.reviews && r.facts <= r'.facts && r.version <= r'.version
  }

  lemma PreservesTransitive(a: Record, b: Record, c: Record)
    requires Preserves(a, b) && Preserves(b, c)
    ensures Preserves(a, c)
  {
    forall i | 0 <= i < |a.revisions|
      ensures c.revisions[i].id == a.revisions[i].id && c.revisions[i].predecessor == a.revisions[i].predecessor
      ensures c.revisions[i].content == a.revisions[i].content && c.revisions[i].digest == a.revisions[i].digest
      ensures a.revisions[i].state == Published ==> c.revisions[i] == a.revisions[i]
    {
      assert b.revisions[i].id == a.revisions[i].id;
    }
  }

  lemma NewDraftPreserves(r: Record, c: Command, actor: string)
    requires Apply(r, c).Success? && (c.Edit? || c.Successor?)
    ensures Preserves(r, Committed(r, c, actor))
  {
    var r' := Committed(r, c, actor);
    forall i | 0 <= i < |r.revisions| ensures r'.revisions[i] == r.revisions[i] {}
  }

  lemma DraftCommandPreserves(r: Record, c: Command, actor: string)
    requires RecordSound(r) && Apply(r, c).Success? && (c.Validate? || c.ReviewDraft? || c.Publish?)
    ensures Preserves(r, Committed(r, c, actor))
  {
    var r', d := Committed(r, c, actor), Find(r.revisions, r.draft.value);
    assert r.revisions[d].state != Published;
    forall i | 0 <= i < |r.revisions| && i != d ensures r'.revisions[i] == r.revisions[i] {}
  }

  /** Published revisions are immutable, archiving is permanent, and nothing recorded is lost. */
  lemma CommandPreserves(r: Record, c: Command, actor: string)
    requires RecordSound(r) && Apply(r, c).Success?
    ensures Preserves(r, Committed(r, c, actor))
  {
    if c.Edit? || c.Successor? {
      NewDraftPreserves(r, c, actor);
    } else if c.ChangeLifecycle? {
      LifecyclePreserves(r, c, actor);
    } else {
      DraftCommandPreserves(r, c, actor);
    }
  }

  lemma LifecyclePreserves(r: Record, c: Command, actor: string)
    requires Apply(r, c).Success? && c.ChangeLifecycle?
    ensures Preserves(r, Committed(r, c, actor))
  {
  }

  /** What publication guarantees: the revision was validated, and an approval names it and its digest. */
  lemma PublishedIsReviewed(r: Record, i: nat)
    requires RecordSound(r) && i < |r.revisions| && r.revisions[i].state == Published
    ensures r.revisions[i].validated
    ensures exists j | 0 <= j < |r.reviews| ::
              r.reviews[j].revision == r.revisions[i].id && r.reviews[j].digest == r.revisions[i].digest
    ensures r.revisions[i].digest
         == Digest(r.id, r.revisions[i].id, r.revisions[i].predecessor, r.namespace, r.domain, r.revisions[i].content)
  {
    assert RevisionSound(r, r.revisions[i]);
  }

  // ---------- What the commands mean ----------

  /** The revision at this position is the current draft. */
  predicate IsDraftAt(r: Record, i: nat) {
    i < |r.revisions| && r.draft == Some(r.revisions[i].id)
    && forall j | 0 <= j < i :: r.revisions[j].id != r.revisions[i].id
  }

  predicate IsPublishedAt(r: Record, i: nat) {
    i < |r.revisions| && r.published == Some(r.revisions[i].id)
    && forall j | 0 <= j < i :: r.revisions[j].id != r.revisions[i].id
  }

  /** What makes a definition what it is, and no command changes. */
  predicate SameDefinition(r: Record, r': Record) {
    && r'.id == r.id && r'.namespace == r.namespace && r'.domain == r.domain && r'.name == r.name
    && r'.relationships == r.relationships
  }

  predicate SameSwitches(r: Record, r': Record) {
    r'.enabled == r.enabled && r'.archived == r.archived
  }

  /** One more revision at the end: a draft with the given identifier, predecessor and content. */
  predicate AddsDraft(r: Record, r': Record, id: Id, predecessor: Option<Id>, content: Content) {
    && |r'.revisions| == |r.revisions| + 1 && r'.revisions[..|r.revisions|] == r.revisions
    && (var last := r'.revisions[|r.revisions|];
        && last.id == id && last.predecessor == predecessor && last.content == content
        && last.state == Draft && !last.validated)
    && r'.draft == Some(id) && r'.published == r.published && r'.reviews == r.reviews
    && r'.lifecycle == DraftStage
  }

  /** Only the revision at this position changes, and of it only the state and the mark of validation. */
  predicate MovesRevision(r: Record, r': Record, i: nat, state: RevisionState, validated: bool) {
    && i < |r.revisions| == |r'.revisions|
    && (forall j | 0 <= j < |r.revisions| && j != i :: r'.revisions[j] == r.revisions[j])
    && r'.revisions[i].id == r.revisions[i].id && r'.revisions[i].predecessor == r.revisions[i].predecessor
    && r'.revisions[i].content == r.revisions[i].content && r'.revisions[i].digest == r.revisions[i].digest
    && r'.revisions[i].state == state && r'.revisions[i].validated == validated
  }

  /** When a command is permitted, in terms of the record. */
  ghost predicate Permitted(r: Record, c: Command) {
    match c
    case Edit(content, _) => content.Some? && exists i: nat :: IsDraftAt(r, i)
    case Validate(bindings) => bindings && exists i: nat :: IsDraftAt(r, i)
    case ReviewDraft(digest, approve, reason, bindings, _) =>
      && approve && reason && bindings
      && exists i: nat :: IsDraftAt(r, i) && r.revisions[i].state == Validated && r.revisions[i].digest == digest
    case Publish(digest, reviewId) =>
      && (exists k: nat :: IsFirstReview(r, k, reviewId) && r.reviews[k].digest == digest)
      && exists i: nat :: IsDraftAt(r, i) && r.revisions[i].state == HumanReviewed && r.revisions[i].digest == digest
    case Successor(_) => r.draft.None? && exists i: nat :: IsPublishedAt(r, i)
    case ChangeLifecycle(action, reason) =>
      && reason && !action.OtherAction?
      && (action.Deprecate? ==> exists i: nat :: IsPublishedAt(r, i))
  }

  predicate IsFirstReview(r: Record, k: nat, reviewId: Id) {
    k < |r.reviews| && r.reviews[k].id == reviewId && forall j | 0 <= j < k :: r.reviews[j].id != reviewId
  }

  /** What a committed command makes of a record, field by field. */
  ghost predicate Means(r: Record, c: Command, actor: string, r': Record) {
    && SameDefinition(r, r') && r'.version == r.version + 1
    && match c
       case Edit(content, newId) =>
         && r'.facts == r.facts + [Fact(DraftEdited, actor)] && SameSwitches(r, r')
         && content.Some? && AddsDraft(r, r', newId, r.draft, content.value)
       case Validate(_) =>
         && r'.facts == r.facts + [Fact(DraftValidated, actor)] && SameSwitches(r, r')
         && r'.draft == r.draft && r'.published == r.published && r'.reviews == r.reviews
         && r'.lifecycle == ValidatedStage
         && exists i: nat :: IsDraftAt(r, i) && MovesRevision(r, r', i, Validated, true)
       case ReviewDraft(digest, _, _, _, newId) =>
         && r'.facts == r.facts + [Fact(HumanReview, actor)] && SameSwitches(r, r')
         && r'.draft == r.draft && r'.published == r.published && r'.lifecycle == ReviewedStage
         && (exists i: nat :: IsDraftAt(r, i) && MovesRevision(r, r', i, HumanReviewed, r.revisions[i].validated)
               && r'.reviews == r.reviews + [Review(newId, r.revisions[i].id, digest)])
       case Publish(_, _) =>
         && r'.facts == r.facts + [Fact(RevisionPublished, actor)] && SameSwitches(r, r')
         && r'.draft == None && r'.published == r.draft && r'.reviews == r.reviews
         && r'.lifecycle == PublishedStage
         && exists i: nat :: IsDraftAt(r, i) && MovesRevision(r, r', i, Published, r.revisions[i].validated)
       case Successor(newId) =>
         && r'.facts == r.facts + [Fact(SuccessorCreated, actor)] && SameSwitches(r, r')
         && exists i: nat :: IsPublishedAt(r, i) && AddsDraft(r, r', newId, r.published, r.revisions[i].content)
       case ChangeLifecycle(action, _) =>
         && r'.facts == r.facts + [Fact(LifecycleChanged(action), actor)]
         && r'.draft == r.draft && r'.published == r.published
         && r'.revisions == r.revisions && r'.reviews == r.reviews
         && r'.enabled == (if action.Enable? then true else if action.Disable? then false else r.enabled)
         && r'.archived == (action.Archive? || r.archived)
         && r'.lifecycle == if action.Archive? then Archived else if action.Deprecate? then Deprecated else r.lifecycle
  }

  lemma DraftFound(r: Record)
    requires r.draft.Some?
    ensures var i := Find(r.revisions, r.draft.value);
            && (i < |r.revisions| <==> exists j: nat :: IsDraftAt(r, j))
            && (i < |r.revisions| ==> IsDraftAt(r, i)) && forall j: nat | IsDraftAt(r, j) :: j == i
  {
    var i := Find(r.revisions, r.draft.value);
    assert i < |r.revisions| ==> IsDraftAt(r, i);
  }

  lemma PublishedFound(r: Record)
    requires r.published.Some?
    ensures var i := Find(r.revisions, r.published.value);
            && (i < |r.revisions| <==> exists j: nat :: IsPublishedAt(r, j))
            && (i < |r.revisions| ==> IsPublishedAt(r, i)) && forall j: nat | IsPublishedAt(r, j) :: j == i
  {
    var i := Find(r.revisions, r.published.value);
    assert i < |r.revisions| ==> IsPublishedAt(r, i);
  }

  lemma {:induction false} ReviewFound(r: Record, from: nat, id: Id, digest: Digest)
    requires from <= |r.reviews| && forall j | 0 <= j < from :: r.reviews[j].id != id
    ensures HasReview(r.reviews[from..], id, digest) <==>
              exists k: nat :: IsFirstReview(r, k, id) && r.reviews[k].digest == digest
    decreases |r.reviews| - from
  {
    if from < |r.reviews| {
      var rest := r.reviews[from..];
      assert rest[0] == r.reviews[from] && rest[1..] == r.reviews[from + 1..];
      if rest[0].id == id {
        assert IsFirstReview(r, from, id);
      } else {
        ReviewFound(r, from + 1, id, digest);
      }
    }
  }

  lemma EditMeans(r: Record, c: Command, actor: string)
    requires c.Edit?
    ensures Apply(r, c).Success? <==> Permitted(r, c)
    ensures Apply(r, c).Success? ==> Means(r, c, actor, Committed(r, c, actor))
  {
    if r.draft.Some? {
      DraftFound(r);
    }
  }

  lemma ValidateMeans(r: Record, c: Command, actor: string)
    requires c.Validate?
    ensures Apply(r, c).Success? <==> Permitted(r, c)
    ensures Apply(r, c).Success? ==> Means(r, c, actor, Committed(r, c, actor))
  {
    if r.draft.Some? {
      DraftFound(r);
      if Apply(r, c).Success? {
        assert MovesRevision(r, Committed(r, c, actor), Find(r.revisions, r.draft.value), Validated, true);
      }
    }
  }

  lemma ReviewMeans(r: Record, c: Command, actor: string)
    requires c.ReviewDraft?
    ensures Apply(r, c).Success? <==> Permitted(r, c)
    ensures Apply(r, c).Success? ==> Means(r, c, actor, Committed(r, c, actor))
  {
    if r.draft.Some? {
      DraftFound(r);
      if Apply(r, c).Success? {
        var i := Find(r.revisions, r.draft.value);
        assert MovesRevision(r, Committed(r, c, actor), i, HumanReviewed, r.revisions[i].validated);
      }
    }
  }

  lemma PublishMeans(r: Record, c: Command, actor: string)
    requires c.Publish?
    ensures Apply(r, c).Success? <==> Permitted(r, c)
    ensures Apply(r, c).Success? ==> Means(r, c, actor, Committed(r, c, actor))
  {
    ReviewFound(r, 0, c.reviewId, c.digest);
    assert r.reviews[0..] == r.reviews;
    if r.draft.Some? {
      DraftFound(r);
      if Apply(r, c).Success? {
        var i := Find(r.revisions, r.draft.value);
        assert MovesRevision(r, Committed(r, c, actor), i, Published, r.revisions[i].validated);
      }
    }
  }

  lemma SuccessorMeans(r: Record, c: Command, actor: string)
    requires c.Successor?
    ensures Apply(r, c).Success? <==> Permitted(r, c)
    ensures Apply(r, c).Success? ==> Means(r, c, actor, Committed(r, c, actor))
  {
    if r.published.Some? {
      PublishedFound(r);
      if Apply(r, c).Success? {
        var i := Find(r.revisions, r.published.value);
        assert AddsDraft(r, Committed(r, c, actor), c.newId, r.published, r.revisions[i].content);
      }
    }
  }

  lemma LifecycleMeans(r: Record, c: Command, actor: string)
    requires c.ChangeLifecycle?
    ensures Apply(r, c).Success? <==> Permitted(r, c)
    ensures Apply(r, c).Success? ==> Means(r, c, actor, Committed(r, c, actor))
  {
    if r.published.Some? {
      PublishedFound(r);
    }
  }

  /** A command succeeds exactly when it is permitted, and a committed command means what it says. */
  lemma CommandMeans(r: Record, c: Command, actor: string)
    ensures Apply(r, c).Success? <==> Permitted(r, c)
    ensures Apply(r, c).Success? ==> Means(r, c, actor, Committed(r, c, actor))
  {
    match c
    case Edit(_, _) => EditMeans(r, c, actor);
    case Validate(_) => ValidateMeans(r, c, actor);
    case ReviewDraft(_, _, _, _, _) => ReviewMeans(r, c, actor);
    case Publish(_, _) => PublishMeans(r, c, actor);
    case Successor(_) => SuccessorMeans(r, c, actor);
    case ChangeLifecycle(_, _) => LifecycleMeans(r, c, actor);
  }

  /** What a new definition is, field by field. */
  lemma NewRecordMeans(namespace: string, domain: string, name: string, content: Content,
                       id: Id, revisionId: Id, actor: string)
    ensures var r := NewRecord(namespace, domain, name, content, id, revisionId, actor);
            && KeyOf(r) == Key(namespace, domain, id) && r.name == name && r.version == 1
            && r.lifecycle == DraftStage && r.enabled && !r.archived
            && r.draft == Some(revisionId) && r.published == None
            && |r.revisions| == 1 && r.revisions[0].id == revisionId && r.revisions[0].content == content
            && r.revisions[0].state == Draft && r.revisions[0].predecessor == None && !r.revisions[0].validated
            && r.reviews == [] && r.facts == [Fact(DraftCreated, actor)] && r.relationships == []
  {
  }

  /** Deprecation is not permanent: of an enabled, unarchived and deprecated definition, exactly the
      commands that touch a revision make it eligible again. */
  lemma DeprecationEnds(r: Record, c: Command, actor: string)
    requires RecordSound(r) && Apply(r, c).Success?
    requires r.lifecycle == Deprecated && r.published.Some? && r.enabled && !r.archived
    ensures Eligible(Committed(r, c, actor)) <==> !c.ChangeLifecycle?
  {}

  /** For example: publish, deprecate, and then start a successor. */
  lemma DeprecatedThenEligible(namespace: string, domain: string, name: string, content: Content, actor: string)
    ensures
      var r0 := NewRecord(namespace, domain, name, content, 0, 1, actor);
      var digest := r0.revisions[0].digest;
      var r1 := Committed(r0, Validate(true), actor);
      var r2 := Committed(r1, ReviewDraft(digest, true, true, true, 2), actor);
      var r3 := Committed(r2, Publish(digest, 2), actor);
      var r4 := Committed(r3, ChangeLifecycle(Deprecate, true), actor);
      !Eligible(r4) && Eligible(Committed(r4, Successor(3), actor))
  {}
}
