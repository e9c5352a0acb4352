/** Storing agent definitions: the in-memory repository with its version check and tombstones
    (console/backend/src/agent_console/agent_definition_repository.py), the service on top of it
    (agent_definition_service.py), and every interleaving of their load-then-replace commands. */
module AgentDefinitionStore {
  import opened Wrappers
  import opened AgentDefinitions

  class InMemoryRepository {
    var records: map<Key, Record>
    var tombstones: set<Key>

    ghost predicate Valid()
      reads this
    {
      records.Keys !! tombstones && forall k | k in records :: KeyOf(records[k]) == k
    }

    constructor ()
      ensures Valid() && records == map[] && tombstones == {}
    {
      records, tombstones := map[], {};
    }

    method Get(key: Key) returns (r: Result<Record, Failure>)
      ensures r == if key in records then Success(records[key]) else Failure(NotFound)
    {
      r := if key in records then Success(records[key]) else Failure(NotFound);
    }

    method Create(record: Record) returns (r: Result<Record, Failure>)
      requires Valid()
      modifies this`records
      ensures Valid()
      ensures r.Success? <==> KeyOf(record) !in old(records) && KeyOf(record) !in tombstones
      ensures r.Success? ==> r.value == record && records == old(records)[KeyOf(record) := record]
      ensures r.Failure? ==> r.error == Conflict && records == old(records)
    {
      var key := KeyOf(record);
      if key in records || key in tombstones {
        return Failure(Conflict);
      }
      records := records[key := record];
      return Success(record);
    }

    /** Compare and swap on the version; the fact is appended to the stored facts. */
    method Replace(record: Record, expected: nat, fact: Fact) returns (r: Result<Record, Failure>)
      requires Valid()
      modifies this`records
      ensures Valid()
      ensures r.Success? <==> KeyOf(record) in old(records) && old(records)[KeyOf(record)].version == expected
      ensures r.Success? ==>
                && r.value == record.(facts := old(records)[KeyOf(record)].facts + [fact])
                && records == old(records)[KeyOf(record) := r.value]
      ensures r.Failure? ==>
                && r.error == (if KeyOf(record) in old(records) then Stale else NotFound)
                && records == old(records)
    {
      var key := KeyOf(record);
      if key !in records {
        return Failure(NotFound);
      }
      if records[key].version != expected {
        return Failure(Stale);
      }
      var stored := record.(facts := records[key].facts + [fact]);
      records := records[key := stored];
      return Success(stored);
    }

    method DeleteDraft(key: Key, expected: nat) returns (r: Result<(), Failure>)
      requires Valid()
      modifies this
      ensures Valid()
      ensures r.Success? <==> key in old(records) && old(records)[key].version == expected
      ensures r.Success? ==> records == old(records) - {key} && tombstones == old(tombstones) + {key}
      ensures r.Failure? ==> records == old(records) && tombstones == old(tombstones)
    {
      if key !in records {
        return Failure(NotFound);
      }
      if records[key].version != expected {
        return Failure(Stale);
      }
      tombstones := tombstones + {key};
      records := records - {key};
      return Success(());
    }
  }

  predicate InScope(k: Key, namespace: string, domain: string) {
    k.namespace == namespace && k.domain == domain
  }

  /** Published, enabled, not archived and neither deprecated nor archived by its lifecycle. */
  predicate MayBeUsed(r: Record) {
    r.published != None && r.enabled == true && r.archived == false
    && (r.lifecycle in {DraftStage, ValidatedStage, ReviewedStage, PublishedStage})
  }

  class AgentDefinitionService {
    const repository: InMemoryRepository

    constructor (repository: InMemoryRepository)
      ensures this.repository == repository
    {
      this.repository := repository;
    }

    method Create(namespace: string, domain: string, name: string, content: Option<Content>,
                  id: Id, revisionId: Id, actor: string) returns (r: Result<Record, Failure>)
      requires repository.Valid()
      modifies repository
      ensures repository.Valid() && repository.tombstones == old(repository.tombstones)
      ensures r.Success? <==>
                && name != "" && content.Some?
                && Key(namespace, domain, id) !in old(repository.records)
                && Key(namespace, domain, id) !in repository.tombstones
      ensures r.Success? ==>
                && r.value == NewRecord(namespace, domain, name, content.value, id, revisionId, actor)
                && repository.records == old(repository.records)[KeyOf(r.value) := r.value]
      ensures r.Failure? ==> repository.records == old(repository.records)
    {
      if name == "" {
        return Failure(NameRequired);
      }
      if content.None? {
        return Failure(InvalidContent);
      }
      r := repository.Create(NewRecord(namespace, domain, name, content.value, id, revisionId, actor));
    }

    /** Load, check the expected version, apply the command, replace: every command on a stored
        definition. With no other writer in between it commits exactly when it is permitted. */
    method Execute(key: Key, actor: string, expected: nat, c: Command) returns (r: Result<Record, Failure>)
      requires repository.Valid()
      modifies repository
      ensures repository.Valid() && repository.tombstones == old(repository.tombstones)
      ensures r.Success? <==>
                && key in old(repository.records) && old(repository.records)[key].version == expected
                && Apply(old(repository.records)[key], c).Success?
      ensures r.Success? ==>
                && r.value == Committed(old(repository.records)[key], c, actor)
                && Permitted(old(repository.records)[key], c) && Means(old(repository.records)[key], c, actor, r.value)
                && repository.records == old(repository.records)[key := r.value]
      ensures r.Failure? ==>
                && repository.records == old(repository.records)
                && !(key in repository.records && repository.records[key].version == expected
                     && Permitted(repository.records[key], c))
    {
      var loaded := repository.Get(key);
      if loaded.Failure? {
        return Failure(loaded.error);
      }
      if loaded.value.version != expected {
        return Failure(Stale);
      }
      CommandMeans(loaded.value, c, actor);
      var changed := Apply(loaded.value, c);
      if changed.Failure? {
        return Failure(changed.error);
      }
      r := repository.Replace(changed.value.(version := expected + 1), expected, Fact(EventOf(c), actor));
    }

    /** The definitions of a scope that may be used, each with its published revision; it fails when a
        published pointer dangles, which no command ever brings about. */
    method ListEligible(namespace: string, domain: string) returns (r: Result<map<Key, Revision>, Failure>)
      ensures r.Success? <==>
                forall k | k in repository.records && InScope(k, namespace, domain)
                           && MayBeUsed(repository.records[k]) ::
                  exists i: nat :: IsPublishedAt(repository.records[k], i)
      ensures r.Success? ==> forall k ::
                k in r.value <==>
                  k in repository.records && InScope(k, namespace, domain) && MayBeUsed(repository.records[k])
      ensures r.Success? ==> forall k | k in r.value ::
                && k in repository.records
                && (exists i: nat :: IsPublishedAt(repository.records[k], i)
                      && r.value[k] == repository.records[k].revisions[i])
    {
      var found: map<Key, Revision> := map[];
      var left := repository.records.Keys;
      while left != {}
        invariant left <= repository.records.Keys
        invariant forall k :: k in found <==>
                    && k in repository.records && k !in left
                    && InScope(k, namespace, domain) && MayBeUsed(repository.records[k])
        invariant forall k | k in found ::
                    && k in repository.records
                    && (exists i: nat :: IsPublishedAt(repository.records[k], i)
                          && found[k] == repository.records[k].revisions[i])
      {
        var k :| k in left;
        var record := repository.records[k];
        if InScope(k, namespace, domain) && Eligible(record) {
          PublishedFound(record);
          var i := Find(record.revisions, record.published.value);
          if i == |record.revisions| {
            return Failure(DanglingPointer);
          }
          found := found[k := record.revisions[i]];
        }
        left := left - {k};
      }
      return Success(found);
    }

    /** Deletion reads the definition twice before it asks the repository to delete it. */
    method DeleteDraft(key: Key, expected: nat) returns (r: Result<(), Failure>)
      requires repository.Valid()
      modifies repository
      ensures repository.Valid()
      ensures r.Success? <==>
                && key in old(repository.records) && old(repository.records)[key].version == expected
                && old(repository.records)[key].published == None && old(repository.records)[key].relationships == []
      ensures r.Success? ==>
                && repository.records == old(repository.records) - {key}
                && repository.tombstones == old(repository.tombstones) + {key}
      ensures r.Failure? ==>
                repository.records == old(repository.records) && repository.tombstones == old(repository.tombstones)
    {
      var loaded := repository.Get(key);
      if loaded.Failure? {
        return Failure(loaded.error);
      }
      if loaded.value.version != expected {
        return Failure(Stale);
      }
      var impact := repository.Get(key);
      if !DeletionPermitted(impact.value) {
        return Failure(ProtectedOrReferenced);
      }
      r := repository.DeleteDraft(key, expected);
    }
  }

  // ---------- Every interleaving ----------

  /** The repository, with every record that was ever stored under each key. */
  datatype Store = Store(records: map<Key, Record>, tombstones: set<Key>, history: map<Key, seq<Record>>)

  /** The write of a command, by a client that read the record some time before: `seen` and
      `impact` are the positions in the history of the records that it read. */
  datatype Step =
    | CreateStep(creation: Creation)
    | CommitStep(key: Key, seen: nat, command: Command, actor: string)
    | DeleteStep(key: Key, seen: nat, impact: nat)

  /** What the service's create is called with, and the identifiers that it makes. */
  datatype Creation = Creation(
    namespace: string, domain: string, name: string, content: Content, id: Id, revisionId: Id, actor: string)

  function RecordOf(c: Creation): Record {
    NewRecord(c.namespace, c.domain, c.name, c.content, c.id, c.revisionId, c.actor)
  }

  /** The record of a definition just created: one draft, nothing validated, reviewed or published. */
  ghost predicate IsNewRecord(r: Record) {
    exists c: Creation :: c.name != "" && r == RecordOf(c)
  }

  predicate Enabled(s: Store, step: Step) {
    match step
    case CreateStep(creation) => creation.name != ""
    case CommitStep(key, seen, c, actor) =>
      && key in s.history && seen < |s.history[key]|
      && Apply(s.history[key][seen], c).Success? && FreshIds(s.history[key][seen], c)
    case DeleteStep(key, seen, impact) =>
      && key in s.history && seen <= impact < |s.history[key]|
      && DeletionPermitted(s.history[key][impact])
  }

  /** The effect on the repository: a write whose expected version is outdated does nothing. */
  function Next(s: Store, step: Step): Store
    requires Enabled(s, step)
  {
    match step
    case CreateStep(creation) =>
      var record := RecordOf(creation);
      var key := KeyOf(record);
      if key in s.records || key in s.tombstones then s
      else Store(s.records[key := record], s.tombstones, s.history[key := [record]])
    case CommitStep(key, seen, c, actor) =>
      var loaded := s.history[key][seen];
      if key !in s.records || s.records[key].version != loaded.version then s
      else
        var stored := Apply(loaded, c).value.(
          version := loaded.version + 1, facts := s.records[key].facts + [Fact(EventOf(c), actor)]);
        Store(s.records[key := stored], s.tombstones, s.history[key := s.history[key] + [stored]])
    case DeleteStep(key, seen, impact) =>
      if key !in s.records || s.records[key].version != s.history[key][seen].version then s
      else Store(s.records - {key}, s.tombstones + {key}, s.history)
  }

  predicate IsRun(s: Store, run: seq<Step>)
    decreases |run|
  {
    run == [] || (Enabled(s, run[0]) && IsRun(Next(s, run[0]), run[1..]))
  }

  function After(s: Store, run: seq<Step>): Store
    requires IsRun(s, run)
    decreases |run|
  {
    if run == [] then s else After(Next(s, run[0]), run[1..])
  }

  const EMPTY := Store(map[], {}, map[])

  /** `b` is what one committed command made of `a`. */
  ghost predicate Follows(a: Record, b: Record) {
    exists c, actor :: Apply(a, c).Success? && FreshIds(a, c) && b == Committed(a, c, actor)
  }

  ghost predicate LinkSound(h: seq<Record>, i: nat)
    requires i < |h|
  {
    h[i].version == i + 1 && RecordSound(h[i]) && KeyOf(h[i]) == KeyOf(h[0])
  }

  /** One chain of legal transitions, with versions counting from one. */
  ghost predicate Chain(h: seq<Record>) {
    && h != [] && IsNewRecord(h[0])
    && (forall i: nat {:trigger LinkSound(h, i)} | i < |h| :: LinkSound(h, i))
    && forall i {:trigger Follows(h[i], h[i + 1])} | 0 <= i < |h| - 1 :: Follows(h[i], h[i + 1])
  }

  ghost predicate KeyInvariant(s: Store, k: Key)
    requires k in s.history
  {
    var h := s.history[k];
    && Chain(h) && KeyOf(h[0]) == k
    && (k in s.records ==> s.records[k] == h[|h| - 1])
    && (k in s.tombstones ==> h[|h| - 1].published.None? && h[|h| - 1].relationships == [])
  }

  ghost predicate Invariant(s: Store) {
    && s.records.Keys !! s.tombstones
    && s.records.Keys + s.tombstones == s.history.Keys
    && forall k {:trigger KeyInvariant(s, k)} | k in s.history :: KeyInvariant(s, k)
  }

  /** Compare and swap admits no lost update: a commit succeeds only on the record that it read. */
  lemma CommitSeesCurrent(s: Store, key: Key, seen: nat)
    requires Invariant(s) && key in s.records && key in s.history && seen < |s.history[key]|
    requires s.records[key].version == s.history[key][seen].version
    ensures seen == |s.history[key]| - 1 && s.history[key][seen] == s.records[key]
  {
    assert KeyInvariant(s, key);
    var h := s.history[key];
    assert LinkSound(h, seen) && LinkSound(h, |h| - 1);
  }

  lemma ChainExtends(h: seq<Record>, c: Command, actor: string)
    requires Chain(h) && Apply(h[|h| - 1], c).Success? && FreshIds(h[|h| - 1], c)
    ensures Chain(h + [Committed(h[|h| - 1], c, actor)])
  {
    var last, next := h[|h| - 1], Committed(h[|h| - 1], c, actor);
    var longer := h + [next];
    assert LinkSound(h, |h| - 1);
    CommandKeepsSound(last, c, actor);
    CommandPreserves(last, c, actor);
    assert Follows(last, next);
    forall i: nat | i < |longer| ensures LinkSound(longer, i) {
      assert i < |h| ==> LinkSound(h, i);
    }
    forall i | 0 <= i < |longer| - 1 ensures Follows(longer[i], longer[i + 1]) {
      if i < |h| - 1 {
        assert Follows(h[i], h[i + 1]);
      }
    }
  }

  /** What a step at one key leaves untouched at another. */
  lemma OtherKeysKeep(s: Store, s': Store, key: Key)
    requires Invariant(s)
    requires forall k | k in s'.history && k != key :: k in s.history && s'.history[k] == s.history[k]
    requires forall k | k in s'.records && k != key :: k in s.records && s'.records[k] == s.records[k]
    requires forall k | k in s'.tombstones && k != key :: k in s.tombstones
    ensures forall k {:trigger KeyInvariant(s', k)} | k in s'.history && k != key :: KeyInvariant(s', k)
  {
    forall k | k in s'.history && k != key ensures KeyInvariant(s', k) {
      assert KeyInvariant(s, k);
    }
  }

  lemma CreateKeepsInvariant(s: Store, c: Creation)
    requires Invariant(s) && Enabled(s, CreateStep(c))
    ensures Invariant(Next(s, CreateStep(c)))
  {
    var s', key := Next(s, CreateStep(c)), KeyOf(RecordOf(c));
    if s' != s {
      NewRecordSound(c.namespace, c.domain, c.name, c.content, c.id, c.revisionId, c.actor);
      assert IsNewRecord(RecordOf(c));
      OtherKeysKeep(s, s', key);
      assert KeyInvariant(s', key);
    }
  }

  lemma CommitKeepsInvariant(s: Store, key: Key, seen: nat, c: Command, actor: string)
    requires Invariant(s) && Enabled(s, CommitStep(key, seen, c, actor))
    ensures Invariant(Next(s, CommitStep(key, seen, c, actor)))
  {
    var s' := Next(s, CommitStep(key, seen, c, actor));
    if key in s.records && s.records[key].version == s.history[key][seen].version {
      CommitSeesCurrent(s, key, seen);
      assert KeyInvariant(s, key);
      ChainExtends(s.history[key], c, actor);
      assert s'.history[key] == s.history[key] + [Committed(s.records[key], c, actor)];
      OtherKeysKeep(s, s', key);
      assert KeyInvariant(s', key);
    }
  }

  /** Deletion reads twice and deletes later; the version check makes the three agree. */
  lemma DeleteKeepsInvariant(s: Store, key: Key, seen: nat, impact: nat)
    requires Invariant(s) && Enabled(s, DeleteStep(key, seen, impact))
    ensures Invariant(Next(s, DeleteStep(key, seen, impact)))
  {
    var s' := Next(s, DeleteStep(key, seen, impact));
    if key in s.records && s.records[key].version == s.history[key][seen].version {
      CommitSeesCurrent(s, key, seen);
      assert KeyInvariant(s, key);
      assert impact == seen;
      OtherKeysKeep(s, s', key);
      assert KeyInvariant(s', key);
    }
  }

  lemma StepKeepsInvariant(s: Store, step: Step)
    requires Invariant(s) && Enabled(s, step)
    ensures Invariant(Next(s, step)) && Grows(s, Next(s, step))
  {
    match step
    case CreateStep(creation) => CreateKeepsInvariant(s, creation);
    case CommitStep(key, seen, c, actor) => CommitKeepsInvariant(s, key, seen, c, actor);
    case DeleteStep(key, seen, impact) => DeleteKeepsInvariant(s, key, seen, impact);
  }

  /** Histories only get longer, and deleted keys stay deleted. */
  predicate Grows(s: Store, s': Store) {
    && s.tombstones <= s'.tombstones
    && forall k {:trigger s'.history[k]} | k in s.history :: k in s'.history && s.history[k] <= s'.history[k]
  }

  lemma {:induction false} RunKeepsInvariant(s: Store, run: seq<Step>)
    requires Invariant(s) && IsRun(s, run)
    ensures Invariant(After(s, run)) && Grows(s, After(s, run))
    decreases |run|
  {
    if run != [] {
      var next := Next(s, run[0]);
      StepKeepsInvariant(s, run[0]);
      RunKeepsInvariant(next, run[1..]);
      forall k | k in s.history ensures k in After(s, run).history && s.history[k] <= After(s, run).history[k] {
        assert s.history[k] <= next.history[k] && next.history[k] <= After(s, run).history[k];
      }
    }
  }

  /** Along a chain, later records preserve what earlier ones established. */
  lemma {:induction false} ChainPreserves(h: seq<Record>, i: nat, j: nat)
    requires Chain(h) && i <= j < |h|
    ensures Preserves(h[i], h[j])
    decreases j - i
  {
    if i < j {
      ChainPreserves(h, i, j - 1);
      StepPreserves(h, j - 1);
      PreservesTransitive(h[i], h[j - 1], h[j]);
    } else {
      assert Preserves(h[i], h[j]);
    }
  }

  lemma StepPreserves(h: seq<Record>, m: nat)
    requires Chain(h) && m + 1 < |h|
    ensures Preserves(h[m], h[m + 1])
  {
    assert Follows(h[m], h[m + 1]) && LinkSound(h, m);
    var c, actor :| Apply(h[m], c).Success? && FreshIds(h[m], c) && h[m + 1] == Committed(h[m], c, actor);
    CommandPreserves(h[m], c, actor);
  }

  /** Linearizability: in every interleaving, the records stored under a key form one chain in
      which each was made from the one before by a committed command, versions and facts count
      the commits, and the current record is the last; deleted keys never return, and no
      definition that is published or referenced is deleted. */
  lemma Linearizable(run: seq<Step>, later: seq<Step>)
    requires IsRun(EMPTY, run) && IsRun(After(EMPTY, run), later)
    ensures var s, s' := After(EMPTY, run), After(After(EMPTY, run), later);
      && (forall k | k in s'.history ::
            && Chain(s'.history[k])
            && (forall i | 0 <= i < |s'.history[k]| ::
                  s'.history[k][i].version == i + 1 == |s'.history[k][i].facts|)
            && (k in s'.records ==> s'.records[k] == s'.history[k][|s'.history[k]| - 1]))
      && (forall k | k in s.tombstones ::
            && k !in s'.records && k in s'.history
            && s'.history[k][|s'.history[k]| - 1].published.None?
            && s'.history[k][|s'.history[k]| - 1].relationships == [])
      && (forall k | k in s.history :: k in s'.history && s.history[k] <= s'.history[k])
  {
    RunKeepsInvariant(EMPTY, run);
    var s := After(EMPTY, run);
    RunKeepsInvariant(s, later);
    var s' := After(s, later);
    forall k | k in s'.history
      ensures KeyInvariant(s', k)
      ensures forall i | 0 <= i < |s'.history[k]| :: s'.history[k][i].version == i + 1 == |s'.history[k][i].facts|
    {
      assert KeyInvariant(s', k);
      forall i | 0 <= i < |s'.history[k]| ensures s'.history[k][i].version == i + 1 == |s'.history[k][i].facts| {
        assert LinkSound(s'.history[k], i);
      }
    }
  }

  /** Every committed write, by any client in any interleaving, means what its command says of the
      record that it replaces. */
  lemma CommitMeans(run: seq<Step>, key: Key, seen: nat, c: Command, actor: string)
    requires IsRun(EMPTY, run) && Enabled(After(EMPTY, run), CommitStep(key, seen, c, actor))
    ensures var s := After(EMPTY, run);
            var s' := Next(s, CommitStep(key, seen, c, actor));
            if key in s.records && s.records[key].version == s.history[key][seen].version
            then key in s'.records && Permitted(s.records[key], c) && Means(s.records[key], c, actor, s'.records[key])
            else s' == s
  {
    RunKeepsInvariant(EMPTY, run);
    var s := After(EMPTY, run);
    if key in s.records && s.records[key].version == s.history[key][seen].version {
      CommitSeesCurrent(s, key, seen);
      CommandMeans(s.records[key], c, actor);
    }
  }

  /** And so every two records that follow each other in a history are related by some command. */
  lemma HistoryMeans(run: seq<Step>, k: Key, i: nat) returns (c: Command, actor: string)
    requires IsRun(EMPTY, run) && k in After(EMPTY, run).history && i + 1 < |After(EMPTY, run).history[k]|
    ensures var h := After(EMPTY, run).history[k]; Permitted(h[i], c) && Means(h[i], c, actor, h[i + 1])
  {
    RunKeepsInvariant(EMPTY, run);
    assert KeyInvariant(After(EMPTY, run), k);
    var h := After(EMPTY, run).history[k];
    assert Follows(h[i], h[i + 1]);
    c, actor :| Apply(h[i], c).Success? && FreshIds(h[i], c) && h[i + 1] == Committed(h[i], c, actor);
    CommandMeans(h[i], c, actor);
  }

  // ---------- How a revision came to be published ----------

  /** The step after record i commits the command, on a draft that is the revision at position n. */
  ghost predicate CommitsOn(h: seq<Record>, i: nat, c: Command, n: nat) {
    && i + 1 < |h| && n < |h[i].revisions| && h[i].draft == Some(h[i].revisions[n].id)
    && Apply(h[i], c).Success? && exists actor :: h[i + 1] == Committed(h[i], c, actor)
  }

  ghost predicate ValidatedAt(h: seq<Record>, i: nat, n: nat) {
    CommitsOn(h, i, Validate(true), n)
  }

  /** An approval with a reason, valid bindings and the very digest of the revision. */
  ghost predicate ApprovedAt(h: seq<Record>, i: nat, n: nat) {
    i < |h| && n < |h[i].revisions|
    && exists reviewId :: CommitsOn(h, i, ReviewDraft(h[i].revisions[n].digest, true, true, true, reviewId), n)
  }

  ghost predicate PublishedAt(h: seq<Record>, i: nat, n: nat) {
    i < |h| && n < |h[i].revisions|
    && exists reviewId :: CommitsOn(h, i, Publish(h[i].revisions[n].digest, reviewId), n)
  }

  /** What the step to record j did if the revision at n then is in a state in which it was not before. */
  ghost predicate StepExplains(h: seq<Record>, j: nat, n: nat)
    requires 0 < j < |h| && n < |h[j].revisions|
  {
    || (n < |h[j - 1].revisions| && h[j].revisions[n].state == h[j - 1].revisions[n].state)
    || (match h[j].revisions[n].state
        case Draft => true
        case Validated => ValidatedAt(h, j - 1, n)
        case HumanReviewed => ApprovedAt(h, j - 1, n)
        case Published => PublishedAt(h, j - 1, n))
  }

  /** A command changes the state of a revision only by validating, approving or publishing it as
      the draft, with its own digest. */
  lemma CommandMovesDraft(r: Record, c: Command, actor: string, n: nat)
    requires Apply(r, c).Success? && n < |Committed(r, c, actor).revisions|
    ensures var state := Committed(r, c, actor).revisions[n].state;
            || (n < |r.revisions| && state == r.revisions[n].state)
            || state == Draft
            || (&& n < |r.revisions| && r.draft == Some(r.revisions[n].id)
                && match c
                   case Validate(bindings) => state == Validated && bindings
                   case ReviewDraft(digest, approve, reason, bindings, _) =>
                     state == HumanReviewed && digest == r.revisions[n].digest && approve && reason && bindings
                   case Publish(digest, _) => state == Published && digest == r.revisions[n].digest
                   case _ => false)
  {
  }

  lemma StateIsExplained(h: seq<Record>, j: nat, n: nat)
    requires Chain(h) && 0 < j < |h| && n < |h[j].revisions|
    ensures StepExplains(h, j, n)
  {
    var i := j - 1;
    assert Follows(h[i], h[i + 1]);
    var c, actor :| Apply(h[i], c).Success? && FreshIds(h[i], c) && h[i + 1] == Committed(h[i], c, actor);
    ExplainedBy(h, i, c, actor, n);
  }

  lemma ExplainedBy(h: seq<Record>, i: nat, c: Command, actor: string, n: nat)
    requires i + 1 < |h| && Apply(h[i], c).Success? && h[i + 1] == Committed(h[i], c, actor)
    requires n < |h[i + 1].revisions|
    ensures StepExplains(h, i + 1, n)
  {
    CommandMovesDraft(h[i], c, actor, n);
    var state := h[i + 1].revisions[n].state;
    if !(n < |h[i].revisions| && state == h[i].revisions[n].state) && state != Draft {
      assert CommitsOn(h, i, c, n);
    }
  }

  /** Whatever state a revision is in, some earlier step put it there. */
  lemma {:induction false} StateHasOrigin(h: seq<Record>, j: nat, n: nat) returns (i: nat)
    requires Chain(h) && j < |h| && n < |h[j].revisions| && h[j].revisions[n].state != Draft
    ensures i < j && n < |h[i].revisions|
    ensures match h[j].revisions[n].state
            case Draft => true
            case Validated => ValidatedAt(h, i, n)
            case HumanReviewed => ApprovedAt(h, i, n)
            case Published => PublishedAt(h, i, n)
    decreases j
  {
    if j == 0 {
      assert false;
    }
    StateIsExplained(h, j, n);
    if n < |h[j - 1].revisions| && h[j].revisions[n].state == h[j - 1].revisions[n].state {
      i := StateHasOrigin(h, j - 1, n);
    } else {
      i := j - 1;
    }
  }

  /** A step that approves finds the revision validated, one that publishes finds it approved. */
  lemma StateBefore(h: seq<Record>, i: nat, n: nat)
    requires Chain(h) && i < |h| && n < |h[i].revisions|
    ensures ApprovedAt(h, i, n) ==> h[i].revisions[n].state == Validated
    ensures PublishedAt(h, i, n) ==> h[i].revisions[n].state == HumanReviewed
  {
    assert LinkSound(h, i);
    FindUnique(h[i], n);
  }

  /** Three steps, in this order: validated, approved under its own digest, published. */
  ghost predicate PublicationPath(h: seq<Record>, n: nat, j: nat) {
    exists a, b, c | 0 <= a < b < c < j :: ValidatedAt(h, a, n) && ApprovedAt(h, b, n) && PublishedAt(h, c, n)
  }

  lemma PublishedHasPath(h: seq<Record>, j: nat, n: nat)
    requires Chain(h) && j < |h| && n < |h[j].revisions| && h[j].revisions[n].state == Published
    ensures PublicationPath(h, n, j)
  {
    var c := StateHasOrigin(h, j, n);
    StateBefore(h, c, n);
    var b := StateHasOrigin(h, c, n);
    StateBefore(h, b, n);
    var a := StateHasOrigin(h, b, n);
    assert ValidatedAt(h, a, n) && ApprovedAt(h, b, n) && PublishedAt(h, c, n);
  }

  /** Publication integrity over every run: a published revision was validated, then approved under
      its own digest and then published, by steps of the recorded history; it never changes, and an
      approval that names it and its digest stays recorded; an archived definition is never eligible
      again. */
  lemma PublicationIntegrity(run: seq<Step>, k: Key, i: nat, j: nat)
    requires IsRun(EMPTY, run) && k in After(EMPTY, run).history && i <= j < |After(EMPTY, run).history[k]|
    ensures var h := After(EMPTY, run).history[k];
      var before, after := h[i], h[j];
      && |before.revisions| <= |after.revisions|
      && (forall n | 0 <= n < |before.revisions| && before.revisions[n].state == Published ::
            && PublicationPath(h, n, i)
            && after.revisions[n] == before.revisions[n] && Reviewed(after, after.revisions[n]))
      && (before.published.Some? ==> after.published.Some?)
      && (before.archived ==> !Eligible(after))
  {
    RunKeepsInvariant(EMPTY, run);
    var s := After(EMPTY, run);
    assert KeyInvariant(s, k);
    ChainPreserves(s.history[k], i, j);
    var before, after := s.history[k][i], s.history[k][j];
    assert LinkSound(s.history[k], j);
    forall n | 0 <= n < |before.revisions| && before.revisions[n].state == Published
      ensures PublicationPath(s.history[k], n, i)
      ensures after.revisions[n] == before.revisions[n] && Reviewed(after, after.revisions[n])
    {
      PublishedHasPath(s.history[k], i, n);
      assert after.revisions[n] == before.revisions[n];
      assert RevisionSound(after, after.revisions[n]);
    }
  }
}
