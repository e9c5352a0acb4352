/** The runtime manager (operator/src/agent_operator/runtime_manager.py) and its reconciliation
    policy (core/src/agent_core/runtime_control.py): intent is persisted before its effect, and an
    effect whose outcome is in doubt is not issued again. */
module RuntimeControl {
  import opened Wrappers
  import CanonicalJson

  type Time = int
  type RuntimeId = string

  datatype Operation = Start | Stop | Cancel | Replace | Observe

  datatype DesiredKind = WantRunning | WantStopped | WantCancelled | WantReplaced | WantObserve

  datatype ObservedState = Pending | Running | Stopped | Terminated | Failed | UnknownState | StaleState

  /** What the provider can report: it has no stale state of its own. */
  type NativeState = s: ObservedState | s != StaleState witness Pending

  datatype CommandResult = Requested | Applied | Observed | Rejected | Unknown | Stale | RecoveryRequired

  datatype Error =
    | CommandScopeMismatch
    | DesiredGenerationNotMonotonic
    | DesiredCommandNotFound
    | InvalidObservation
    | Interrupted

  datatype Desired = Desired(runtime: RuntimeId, generation: nat, kind: DesiredKind, id: string)

  datatype RawCommand = Command(scope: string, desired: Desired, operation: Operation, references: (string, string))

  function KindOf(operation: Operation): DesiredKind {
    match operation
    case Start => WantRunning
    case Stop => WantStopped
    case Cancel => WantCancelled
    case Replace => WantReplaced
    case Observe => WantObserve
  }

  /** A command cannot be constructed unless its operation fits its desired state. */
  type Command = c: RawCommand | c.desired.kind == KindOf(c.operation)
    witness Command("", Desired("", 1, WantRunning, ""), Start, ("", ""))

  datatype Observation = Observation(
    id: string, runtime: RuntimeId, generation: nat, state: ObservedState, observedAt: Time, deadline: Time)

  datatype Fact = Fact(command: Command, result: CommandResult, recordedAt: Time, observation: Option<Observation>)

  /** How a call into the provider went; an interrupted one is a crash of the manager, or an
      error while looking at the runtime afterwards, so that no fact gets recorded. */
  datatype Attempt = Ran | Raised | Crashed

  datatype ProviderCall = StartRuntime | StopRuntime | ReplaceRuntime

  /** A call of the provider for a command. */
  datatype Effect = Effect(command: Command, call: ProviderCall, attempt: Attempt)

  // ---------- The reconciliation policy ----------

  function CurrentState(observation: Option<Observation>, at: Time): ObservedState {
    if observation.None? then UnknownState
    else if at > observation.value.deadline then StaleState
    else observation.value.state
  }

  predicate Satisfies(kind: DesiredKind, state: ObservedState) {
    match kind
    case WantRunning => state == Running
    case WantStopped => state == Stopped || state == Terminated
    case WantCancelled => state == Terminated
    case WantReplaced => state == Pending || state == Running
    case WantObserve => state != StaleState
  }

  predicate MatchesDesired(desired: Desired, observation: Observation, at: Time) {
    && observation.runtime == desired.runtime
    && observation.generation == desired.generation
    && Satisfies(desired.kind, CurrentState(Some(observation), at))
  }

  function Classify(desired: Desired, observation: Option<Observation>, at: Time): CommandResult {
    var state := CurrentState(observation, at);
    if state == UnknownState then Unknown
    else if state == StaleState then Stale
    else if MatchesDesired(desired, observation.value, at) then Observed
    else Applied
  }

  // ---------- The manager on values ----------

  /** What is persisted, and the effects that the provider has seen. */
  datatype State = State(
    desired: map<RuntimeId, Command>, facts: map<RuntimeId, seq<Fact>>, effects: seq<Effect>, freshness: int)

  /** What one reconcile meets outside: the time, the runtime before and after, the effect. */
  datatype World = World(now: Time, before: Option<NativeState>, attempt: Attempt, after: Option<NativeState>)

  function FactsOf(s: State, r: RuntimeId): seq<Fact> {
    if r in s.facts then s.facts[r] else []
  }

  function Append(s: State, fact: Fact): State {
    var r := fact.command.desired.runtime;
    s.(facts := s.facts[r := FactsOf(s, r) + [fact]])
  }

  /** None when the repository refuses the command. */
  function Persist(s: State, command: Command): Option<State> {
    var r := command.desired.runtime;
    if r in s.desired && command != s.desired[r] && command.desired.generation <= s.desired[r].desired.generation
    then None
    else Some(s.(desired := s.desired[r := command]))
  }

  function ObservationId(command: Command, count: nat): string {
    command.desired.id + "-" + CanonicalJson.Digits(count + 1)
  }

  const MAX_ID_BYTES := 200

  /** The observation that the provider's answer becomes; constructing it can fail. */
  function Normalize(s: State, command: Command, native: Option<NativeState>, now: Time)
    : Result<Option<Observation>, Error>
  {
    if native.None? then Success(None)
    else
      var id := ObservationId(command, |FactsOf(s, command.desired.runtime)|);
      if |CanonicalJson.Utf8(id)| > MAX_ID_BYTES || s.freshness <= 0 then Failure(InvalidObservation)
      else Success(Some(Observation(id, command.desired.runtime, command.desired.generation, native.value,
                                    now, now + s.freshness)))
  }

  predicate Issued(result: CommandResult) {
    result == Applied || result == Observed
  }

  /** Some earlier fact shows the effect of a command with this identity. */
  predicate AlreadyIssued(facts: seq<Fact>, id: string) {
    exists k | 0 <= k < |facts| :: facts[k].command.desired.id == id && Issued(facts[k].result)
  }

  predicate Ambiguous(result: CommandResult) {
    result == Unknown || result == Stale || result == RecoveryRequired
  }

  predicate LastIsAmbiguous(facts: seq<Fact>) {
    facts != [] && Ambiguous(facts[|facts| - 1].result)
  }

  function Request(s: State, command: Command, scope: string, now: Time, crashed: bool): (State, Result<Fact, Error>) {
    if command.scope != scope then (s, Failure(CommandScopeMismatch))
    else match Persist(s, command)
      case None => (s, Failure(DesiredGenerationNotMonotonic))
      case Some(t) =>
        if crashed then (t, Failure(Interrupted))
        else var fact := Fact(command, Requested, now, None); (Append(t, fact), Success(fact))
  }

  /** The provider's method for an operation; OBSERVE has none. */
  function CallFor(operation: Operation): ProviderCall
    requires operation != Observe
  {
    match operation
    case Start => StartRuntime
    case Stop => StopRuntime
    case Cancel => StopRuntime
    case Replace => ReplaceRuntime
  }

  function EffectOf(command: Command, attempt: Attempt): Effect
    requires command.operation != Observe
  {
    Effect(command, CallFor(command.operation), attempt)
  }

  function Record(s: State, fact: Fact): (State, Result<Fact, Error>) {
    (Append(s, fact), Success(fact))
  }

  function Reconcile(s: State, r: RuntimeId, scope: string, w: World): (State, Result<Fact, Error>) {
    if r !in s.desired then (s, Failure(DesiredCommandNotFound))
    else if s.desired[r].scope != scope then (s, Failure(CommandScopeMismatch))
    else
      var command := s.desired[r];
      match Normalize(s, command, w.before, w.now)
      case Failure(e) => (s, Failure(e))
      case Success(observation) =>
        if && observation.Some?
           && (command.operation != Replace || AlreadyIssued(FactsOf(s, r), command.desired.id))
           && Classify(command.desired, observation, w.now) == Observed
        then Record(s, Fact(command, Observed, w.now, observation))
        else if LastIsAmbiguous(FactsOf(s, r))
        then Record(s, Fact(command, RecoveryRequired, w.now, observation))
        else ReconcileByEffect(s, command, observation, w)
  }

  /** The second half: the effect, and what the runtime looks like after it. */
  function ReconcileByEffect(s: State, command: Command, observation: Option<Observation>, w: World)
    : (State, Result<Fact, Error>)
  {
    var t := if command.operation == Observe then s else s.(effects := s.effects + [EffectOf(command, w.attempt)]);
    if w.attempt.Raised? && command.operation != Observe
    then Record(t, Fact(command, RecoveryRequired, w.now, observation))
    else if w.attempt.Crashed? then (t, Failure(Interrupted))
    else match Normalize(t, command, w.after, w.now)
      case Failure(e) => (t, Failure(e))
      case Success(after) => Record(t, Fact(command, Classify(command.desired, after, w.now), w.now, after))
  }

  // ---------- The manager ----------

  /** The repository; production keeps the same two relations in PostgreSQL. */
  class InMemoryRepository {
    var desired: map<RuntimeId, Command>
    var facts: map<RuntimeId, seq<Fact>>

    constructor ()
      ensures desired == map[] && facts == map[]
    {
      desired, facts := map[], map[];
    }

    /** The generation of a runtime's desired command never falls, and two different commands
        never share one. */
    method AppendDesired(command: Command) returns (accepted: bool)
      modifies this`desired
      ensures var r := command.desired.runtime;
              accepted <==> r in old(desired) ==>
                old(desired)[r] == command || old(desired)[r].desired.generation < command.desired.generation
      ensures desired == if accepted then old(desired)[command.desired.runtime := command] else old(desired)
    {
      var r := command.desired.runtime;
      if r in desired {
        if command == desired[r] {
          assert desired == desired[r := command];
          return true;
        }
        if command.desired.generation <= desired[r].desired.generation {
          return false;
        }
      }
      desired := desired[r := command];
      return true;
    }

    method AppendFact(fact: Fact)
      modifies this`facts
      ensures var r := fact.command.desired.runtime;
              facts == old(facts)[r := (if r in old(facts) then old(facts)[r] else []) + [fact]]
    {
      var r := fact.command.desired.runtime;
      facts := facts[r := (if r in facts then facts[r] else []) + [fact]];
    }
  }

  /** The provider; what its calls return is chosen by the caller's `World`. */
  class Provider {
    var effects: seq<Effect>

    constructor ()
      ensures effects == []
    {
      effects := [];
    }

    method Perform(command: Command, call: ProviderCall, attempt: Attempt)
      modifies this
      ensures effects == old(effects) + [Effect(command, call, attempt)]
    {
      effects := effects + [Effect(command, call, attempt)];
    }
  }

  class RuntimeManager {
    const repository: InMemoryRepository
    const provider: Provider
    const freshness: int

    constructor (repository: InMemoryRepository, provider: Provider, freshness: int)
      ensures this.repository == repository && this.provider == provider && this.freshness == freshness
    {
      this.repository, this.provider, this.freshness := repository, provider, freshness;
    }

    ghost function View(): State
      reads repository, provider
    {
      State(repository.desired, repository.facts, provider.effects, freshness)
    }

    method RequestCommand(command: Command, scope: string, now: Time, crashed: bool) returns (r: Result<Fact, Error>)
      modifies repository
      ensures (View(), r) == Request(old(View()), command, scope, now, crashed)
    {
      if command.scope != scope {
        return Failure(CommandScopeMismatch);
      }
      var accepted := repository.AppendDesired(command);
      if !accepted {
        return Failure(DesiredGenerationNotMonotonic);
      }
      if crashed {
        return Failure(Interrupted);
      }
      var fact := Fact(command, Requested, now, None);
      repository.AppendFact(fact);
      return Success(fact);
    }

    method NormalizeNative(command: Command, native: Option<NativeState>, now: Time)
      returns (r: Result<Option<Observation>, Error>)
      ensures r == Normalize(View(), command, native, now)
    {
      if native.None? {
        return Success(None);
      }
      var runtime := command.desired.runtime;
      var count := if runtime in repository.facts then |repository.facts[runtime]| else 0;
      var id := ObservationId(command, count);
      if |CanonicalJson.Utf8(id)| > MAX_ID_BYTES || freshness <= 0 {
        return Failure(InvalidObservation);
      }
      return Success(Some(Observation(id, command.desired.runtime, command.desired.generation, native.value,
                                      now, now + freshness)));
    }

    method IssuedBefore(prior: seq<Fact>, id: string) returns (issued: bool)
      ensures issued == AlreadyIssued(prior, id)
    {
      issued := false;
      for i := 0 to |prior|
        invariant issued == AlreadyIssued(prior[..i], id)
      {
        assert prior[..i + 1] == prior[..i] + [prior[i]];
        assert prior[..i + 1][i] == prior[i];
        assert forall k | 0 <= k < i :: prior[..i + 1][k] == prior[..i][k];
        if prior[i].command.desired.id == id && Issued(prior[i].result) {
          issued := true;
        }
      }
      assert prior[..|prior|] == prior;
    }

    method ReconcileRuntime(runtime: RuntimeId, scope: string, w: World) returns (r: Result<Fact, Error>)
      modifies repository, provider
      ensures (View(), r) == Reconcile(old(View()), runtime, scope, w)
      ensures Filed(old(View())) ==> Explains(old(View()), runtime, scope, w, View(), r)
    {
      ghost var s := View();
      if Filed(s) {
        ReconcileMeans(s, runtime, scope, w);
      }
      if runtime !in repository.desired {
        return Failure(DesiredCommandNotFound);
      }
      var command := repository.desired[runtime];
      if command.scope != scope {
        return Failure(CommandScopeMismatch);
      }
      var normalized := NormalizeNative(command, w.before, w.now);
      if normalized.Failure? {
        return Failure(normalized.error);
      }
      var observation := normalized.value;
      var prior := if runtime in repository.facts then repository.facts[runtime] else [];
      var issued := IssuedBefore(prior, command.desired.id);
      if observation.Some? && (command.operation != Replace || issued)
         && Classify(command.desired, observation, w.now) == Observed {
        r := AppendFact(Fact(command, Observed, w.now, observation));
        return;
      }
      if prior != [] && Ambiguous(prior[|prior| - 1].result) {
        r := AppendFact(Fact(command, RecoveryRequired, w.now, observation));
        return;
      }
      r := ApplyEffect(command, observation, w);
    }

    method ApplyEffect(command: Command, observation: Option<Observation>, w: World) returns (r: Result<Fact, Error>)
      modifies repository, provider
      ensures (View(), r) == ReconcileByEffect(old(View()), command, observation, w)
    {
      if command.operation == Start {
        provider.Perform(command, StartRuntime, w.attempt);
      } else if command.operation == Stop || command.operation == Cancel {
        provider.Perform(command, StopRuntime, w.attempt);
      } else if command.operation == Replace {
        provider.Perform(command, ReplaceRuntime, w.attempt);
      }
      if command.operation != Observe {
        if w.attempt.Raised? {
          r := AppendFact(Fact(command, RecoveryRequired, w.now, observation));
          return;
        }
      }
      if w.attempt.Crashed? {
        return Failure(Interrupted);
      }
      var normalized := NormalizeNative(command, w.after, w.now);
      if normalized.Failure? {
        return Failure(normalized.error);
      }
      r := AppendFact(Fact(command, Classify(command.desired, normalized.value, w.now), w.now, normalized.value));
    }

    method AppendFact(fact: Fact) returns (r: Result<Fact, Error>)
      modifies repository
      ensures (View(), r) == Record(old(View()), fact)
    {
      repository.AppendFact(fact);
      return Success(fact);
    }
  }

  // ---------- Runs ----------

  datatype Action =
    | DoRequest(command: Command, scope: string, now: Time, crashed: bool)
    | DoReconcile(runtime: RuntimeId, scope: string, world: World)

  function Next(s: State, a: Action): State {
    match a
    case DoRequest(command, scope, now, crashed) => Request(s, command, scope, now, crashed).0
    case DoReconcile(r, scope, w) => Reconcile(s, r, scope, w).0
  }

  function Run(s: State, run: seq<Action>): State
    decreases |run|
  {
    if run == [] then s else Run(Next(s, run[0]), run[1..])
  }

  function Initial(freshness: int): State {
    State(map[], map[], [], freshness)
  }

  /** The command that an action makes the repository accept, with authority. */
  function AcceptedBy(s: State, a: Action): set<Command> {
    if a.DoRequest? && a.scope == a.command.scope && Persist(s, a.command).Some? then {a.command} else {}
  }

  /** The commands that the repository accepts in a run. */
  function Accepted(s: State, run: seq<Action>): set<Command>
    decreases |run|
  {
    if run == [] then {} else AcceptedBy(s, run[0]) + Accepted(Next(s, run[0]), run[1..])
  }

  // ---------- The invariant ----------

  predicate Ran(s: State, command: Command) {
    exists i | 0 <= i < |s.effects| :: s.effects[i].command == command && s.effects[i].attempt == Attempt.Ran
  }

  /** An earlier fact shows the effect of a different command with the same identity. */
  predicate IdReused(facts: seq<Fact>, k: nat)
    requires k < |facts|
  {
    exists j | 0 <= j < k ::
      && facts[j].command.desired.id == facts[k].command.desired.id
      && facts[j].command != facts[k].command && Issued(facts[j].result)
  }

  /** What a recorded fact says about the runtime and about what was done to it. */
  predicate FactSound(s: State, r: RuntimeId, k: nat)
    requires k < |FactsOf(s, r)|
  {
    var fact := FactsOf(s, r)[k];
    && fact.command.desired.runtime == r
    && fact.result != Stale && fact.result != Rejected
    && (fact.observation.Some? ==>
          && fact.observation.value.id == ObservationId(fact.command, k)
          && fact.observation.value.runtime == r
          && fact.observation.value.generation == fact.command.desired.generation)
    && (fact.result == Observed ==>
          fact.observation.Some? && MatchesDesired(fact.command.desired, fact.observation.value, fact.recordedAt))
    && (Issued(fact.result) && fact.command.operation == Replace ==>
          Ran(s, fact.command) || IdReused(FactsOf(s, r), k))
  }

  /** An effect belongs to a command accepted before, no newer than the desired one. */
  predicate EffectSound(s: State, accepted: set<Command>, i: nat)
    requires i < |s.effects|
  {
    var command := s.effects[i].command;
    && command in accepted && CallFits(command.operation, s.effects[i].call)
    && Behind(s, command)
  }

  predicate CallFits(operation: Operation, call: ProviderCall) {
    match call
    case StartRuntime => operation == Start
    case StopRuntime => operation == Stop || operation == Cancel
    case ReplaceRuntime => operation == Replace
  }

  predicate Behind(s: State, command: Command) {
    var r := command.desired.runtime;
    && r in s.desired
    && command.desired.generation <= s.desired[r].desired.generation
    && (command.desired.generation == s.desired[r].desired.generation ==> command == s.desired[r])
  }

  predicate Ordered(a: Command, b: Command) {
    a.desired.runtime == b.desired.runtime ==>
      a.desired.generation <= b.desired.generation && (a.desired.generation == b.desired.generation ==> a == b)
  }

  ghost predicate Invariant(s: State, accepted: set<Command>) {
    && (forall r {:trigger s.desired[r]} | r in s.desired ::
          s.desired[r].desired.runtime == r && s.desired[r] in accepted)
    && (forall r, k: nat {:trigger FactSound(s, r, k)} | k < |FactsOf(s, r)| ::
          FactSound(s, r, k) && FactsOf(s, r)[k].command in accepted)
    && (forall i: nat {:trigger EffectSound(s, accepted, i)} | i < |s.effects| :: EffectSound(s, accepted, i))
    && (forall i: nat, j: nat | i < j < |s.effects| :: Ordered(s.effects[i].command, s.effects[j].command))
  }

  // ---------- Every step keeps the invariant ----------

  /** A fact stays sound when facts and effects are appended. */
  lemma FactStaysSound(s: State, t: State, r: RuntimeId, k: nat)
    requires k < |FactsOf(s, r)| && FactSound(s, r, k)
    requires FactsOf(s, r) <= FactsOf(t, r) && s.effects <= t.effects
    ensures FactSound(t, r, k)
  {
    var fact := FactsOf(s, r)[k];
    assert FactsOf(t, r)[k] == fact;
    if Ran(s, fact.command) {
      var i :| 0 <= i < |s.effects| && s.effects[i].command == fact.command && s.effects[i].attempt == Attempt.Ran;
      assert t.effects[i] == s.effects[i];
    }
    if IdReused(FactsOf(s, r), k) {
      var j :| 0 <= j < k && FactsOf(s, r)[j].command.desired.id == fact.command.desired.id
               && FactsOf(s, r)[j].command != fact.command && Issued(FactsOf(s, r)[j].result);
      assert FactsOf(t, r)[j] == FactsOf(s, r)[j];
    }
  }

  lemma RecordKeeps(s: State, accepted: set<Command>, fact: Fact)
    requires Invariant(s, accepted) && fact.command in accepted
    requires var r := fact.command.desired.runtime; FactSound(Append(s, fact), r, |FactsOf(s, r)|)
    ensures Invariant(Append(s, fact), accepted)
  {
    var t, r := Append(s, fact), fact.command.desired.runtime;
    forall q, k: nat | k < |FactsOf(t, q)| ensures FactSound(t, q, k) && FactsOf(t, q)[k].command in accepted {
      if q != r || k < |FactsOf(s, r)| {
        assert FactsOf(t, q)[k] == FactsOf(s, q)[k];
        FactStaysSound(s, t, q, k);
      }
    }
    forall i: nat | i < |t.effects| ensures EffectSound(t, accepted, i) { assert EffectSound(s, accepted, i); }
  }

  lemma PersistKeeps(s: State, accepted: set<Command>, command: Command)
    requires Invariant(s, accepted) && Persist(s, command).Some?
    ensures Invariant(Persist(s, command).value, accepted + {command})
  {
    var t := Persist(s, command).value;
    forall q, k: nat | k < |FactsOf(t, q)|
      ensures FactSound(t, q, k) && FactsOf(t, q)[k].command in accepted + {command}
    {
      assert FactsOf(t, q)[k] == FactsOf(s, q)[k];
      FactStaysSound(s, t, q, k);
    }
    forall i: nat | i < |t.effects| ensures EffectSound(t, accepted + {command}, i) {
      assert s.effects[i] == t.effects[i] && EffectSound(s, accepted, i);
    }
  }

  /** The effect of the desired command comes after all earlier ones. */
  lemma EffectKeeps(s: State, accepted: set<Command>, r: RuntimeId, attempt: Attempt)
    requires Invariant(s, accepted) && r in s.desired && s.desired[r].operation != Observe
    ensures Invariant(s.(effects := s.effects + [EffectOf(s.desired[r], attempt)]), accepted)
  {
    var t := s.(effects := s.effects + [EffectOf(s.desired[r], attempt)]);
    forall q, k: nat | k < |FactsOf(t, q)| ensures FactSound(t, q, k) && FactsOf(t, q)[k].command in accepted {
      assert FactsOf(t, q)[k] == FactsOf(s, q)[k];
      FactStaysSound(s, t, q, k);
    }
    assert s.desired[r].desired.runtime == r;
    forall i: nat | i < |t.effects| ensures EffectSound(t, accepted, i) {
      assert i < |s.effects| ==> t.effects[i] == s.effects[i] && EffectSound(s, accepted, i);
    }
    forall i: nat, j: nat | i < j < |t.effects| ensures Ordered(t.effects[i].command, t.effects[j].command) {
      assert t.effects[i] == s.effects[i] && EffectSound(s, accepted, i);
      assert j < |s.effects| ==> t.effects[j] == s.effects[j];
    }
  }

  /** A fresh look at a runtime is never stale, and what it is classified as is what it shows. */
  lemma FreshLook(s: State, command: Command, native: Option<NativeState>, now: Time)
    requires Normalize(s, command, native, now).Success?
    ensures var o := Normalize(s, command, native, now).value; var result := Classify(command.desired, o, now);
            && (result == Observed || result == Applied || result == Unknown)
            && (result == Unknown <==> native.None? || native == Some(UnknownState))
            && (result == Observed <==>
                  native.Some? && native.value != UnknownState && Satisfies(command.desired.kind, native.value))
            && (result == Observed ==> MatchesDesired(command.desired, o.value, now))
  {
  }

  /** OBSERVED without a new effect: for REPLACE the earlier fact leads back to the replacement. */
  lemma ObservedKeeps(s: State, accepted: set<Command>, r: RuntimeId, fact: Fact)
    requires Invariant(s, accepted) && r in s.desired && fact.command == s.desired[r] && fact.result == Observed
    requires fact.observation.Some? && fact.observation.value.id == ObservationId(fact.command, |FactsOf(s, r)|)
    requires Classify(fact.command.desired, fact.observation, fact.recordedAt) == Observed
    requires fact.command.operation != Replace || AlreadyIssued(FactsOf(s, r), fact.command.desired.id)
    ensures Invariant(Append(s, fact), accepted)
  {
    var t, facts := Append(s, fact), FactsOf(s, r);
    assert FactsOf(t, r) == facts + [fact];
    if fact.command.operation == Replace {
      var k :| 0 <= k < |facts| && facts[k].command.desired.id == fact.command.desired.id && Issued(facts[k].result);
      assert FactsOf(t, r)[k] == facts[k] && FactSound(s, r, k);
      if facts[k].command == fact.command {
        EarlierReplacement(s, t, r, k);
      }
    }
    RecordKeeps(s, accepted, fact);
  }

  lemma EarlierReplacement(s: State, t: State, r: RuntimeId, k: nat)
    requires k < |FactsOf(s, r)| && FactSound(s, r, k)
    requires Issued(FactsOf(s, r)[k].result) && FactsOf(s, r)[k].command.operation == Replace
    requires FactsOf(s, r) < FactsOf(t, r) && s.effects == t.effects
    requires var last := |FactsOf(t, r)| - 1; FactsOf(t, r)[last].command == FactsOf(s, r)[k].command
    ensures Ran(t, FactsOf(s, r)[k].command) || IdReused(FactsOf(t, r), |FactsOf(t, r)| - 1)
  {
    if IdReused(FactsOf(s, r), k) {
      var fact := FactsOf(s, r)[k];
      var j :| 0 <= j < k && FactsOf(s, r)[j].command.desired.id == fact.command.desired.id
               && FactsOf(s, r)[j].command != fact.command && Issued(FactsOf(s, r)[j].result);
      assert FactsOf(t, r)[j] == FactsOf(s, r)[j];
    }
  }

  lemma ReconcileKeeps(s: State, accepted: set<Command>, r: RuntimeId, scope: string, w: World)
    requires Invariant(s, accepted)
    ensures Invariant(Reconcile(s, r, scope, w).0, accepted)
  {
    if r in s.desired && s.desired[r].scope == scope && Normalize(s, s.desired[r], w.before, w.now).Success? {
      var command := s.desired[r];
      var observation := Normalize(s, command, w.before, w.now).value;
      if && observation.Some?
         && (command.operation != Replace || AlreadyIssued(FactsOf(s, r), command.desired.id))
         && Classify(command.desired, observation, w.now) == Observed {
        ObservedKeeps(s, accepted, r, Fact(command, Observed, w.now, observation));
      } else if LastIsAmbiguous(FactsOf(s, r)) {
        RecordKeeps(s, accepted, Fact(command, RecoveryRequired, w.now, observation));
      } else {
        EffectPathKeeps(s, accepted, r, observation, w);
      }
    }
  }

  lemma EffectPathKeeps(s: State, accepted: set<Command>, r: RuntimeId, observation: Option<Observation>, w: World)
    requires Invariant(s, accepted) && r in s.desired
    requires Normalize(s, s.desired[r], w.before, w.now) == Success(observation)
    ensures Invariant(ReconcileByEffect(s, s.desired[r], observation, w).0, accepted)
  {
    var command := s.desired[r];
    var t := if command.operation == Observe then s else s.(effects := s.effects + [EffectOf(command, w.attempt)]);
    if command.operation != Observe {
      EffectKeeps(s, accepted, r, w.attempt);
    }
    if w.attempt.Raised? && command.operation != Observe {
      RecordKeeps(t, accepted, Fact(command, RecoveryRequired, w.now, observation));
    } else if !w.attempt.Crashed? && Normalize(t, command, w.after, w.now).Success? {
      FreshLook(t, command, w.after, w.now);
      var after := Normalize(t, command, w.after, w.now).value;
      var fact := Fact(command, Classify(command.desired, after, w.now), w.now, after);
      if command.operation == Replace {
        assert Append(t, fact).effects[|s.effects|] == EffectOf(command, Attempt.Ran);
      }
      RecordKeeps(t, accepted, fact);
    }
  }

  lemma StepKeeps(s: State, accepted: set<Command>, a: Action)
    requires Invariant(s, accepted)
    ensures Invariant(Next(s, a), accepted + AcceptedBy(s, a))
  {
    match a
    case DoRequest(command, scope, now, crashed) =>
      if command.scope == scope && Persist(s, command).Some? {
        PersistKeeps(s, accepted, command);
        if !crashed {
          RecordKeeps(Persist(s, command).value, accepted + {command}, Fact(command, Requested, now, None));
        }
      } else {
        assert accepted + AcceptedBy(s, a) == accepted;
      }
    case DoReconcile(r, scope, w) =>
      ReconcileKeeps(s, accepted, r, scope, w);
      assert accepted + AcceptedBy(s, a) == accepted;
  }

  lemma {:induction false} RunKeeps(s: State, accepted: set<Command>, run: seq<Action>)
    requires Invariant(s, accepted)
    ensures Invariant(Run(s, run), accepted + Accepted(s, run))
    decreases |run|
  {
    if run == [] {
      assert accepted + Accepted(s, run) == accepted;
    } else {
      StepKeeps(s, accepted, run[0]);
      RunKeeps(Next(s, run[0]), accepted + AcceptedBy(s, run[0]), run[1..]);
      assert accepted + AcceptedBy(s, run[0]) + Accepted(Next(s, run[0]), run[1..]) == accepted + Accepted(s, run);
    }
  }

  lemma Reachable(freshness: int, run: seq<Action>)
    ensures Invariant(Run(Initial(freshness), run), Accepted(Initial(freshness), run))
    ensures Filed(Run(Initial(freshness), run))
  {
    RunKeeps(Initial(freshness), {}, run);
    assert {} + Accepted(Initial(freshness), run) == Accepted(Initial(freshness), run);
  }

  // ---------- What holds of every run ----------

  /** Effects on one runtime come in the order of their generations, one command to each, and none
      is newer than the desired command. */
  lemma EffectsInOrder(freshness: int, run: seq<Action>)
    ensures var s := Run(Initial(freshness), run);
            && (forall i | 0 <= i < |s.effects| ::
                  && s.effects[i].command in Accepted(Initial(freshness), run) && Behind(s, s.effects[i].command)
                  && CallFits(s.effects[i].command.operation, s.effects[i].call))
            && (forall i, j | 0 <= i < j < |s.effects| :: Ordered(s.effects[i].command, s.effects[j].command))
  {
    Reachable(freshness, run);
    var s := Run(Initial(freshness), run);
    forall i | 0 <= i < |s.effects|
      ensures s.effects[i].command in Accepted(Initial(freshness), run) && Behind(s, s.effects[i].command)
      ensures CallFits(s.effects[i].command.operation, s.effects[i].call)
    {
      assert EffectSound(s, Accepted(Initial(freshness), run), i);
    }
  }

  /** The state before the action with this index. */
  function StateAt(freshness: int, run: seq<Action>, k: nat): State
    requires k <= |run|
  {
    Run(Initial(freshness), run[..k])
  }

  /** The action with this index is an authorized request for the command, and the repository accepts it. */
  predicate AcceptedAt(freshness: int, run: seq<Action>, j: nat, command: Command) {
    && j < |run| && run[j].DoRequest? && run[j].command == command && run[j].scope == command.scope
    && Persist(StateAt(freshness, run, j), command).Some?
  }

  lemma {:induction false} LastStep(s: State, run: seq<Action>)
    requires run != []
    ensures Run(s, run) == Next(Run(s, run[..|run| - 1]), run[|run| - 1])
    decreases |run|
  {
    if |run| == 1 {
      assert run[..0] == [] && run[1..] == [];
    } else {
      LastStep(Next(s, run[0]), run[1..]);
      assert run[..|run| - 1][0] == run[0] && run[..|run| - 1][1..] == run[1..][..|run| - 2];
    }
  }

  lemma AcceptedEarlier(freshness: int, run: seq<Action>, n: nat, j: nat, command: Command)
    requires n <= |run| && AcceptedAt(freshness, run[..n], j, command)
    ensures AcceptedAt(freshness, run, j, command)
  {
    assert run[..n][..j] == run[..j];
  }

  /** The desired command of a runtime was accepted by an earlier step. */
  lemma {:induction false} DesiredWasAccepted(freshness: int, run: seq<Action>, r: RuntimeId) returns (j: nat)
    requires r in Run(Initial(freshness), run).desired
    ensures AcceptedAt(freshness, run, j, Run(Initial(freshness), run).desired[r])
    decreases |run|
  {
    var last := |run| - 1;
    var s, a := Run(Initial(freshness), run[..last]), run[last];
    LastStep(Initial(freshness), run);
    Reachable(freshness, run[..last]);
    if a.DoReconcile? {
      ReconcileFrame(s, a.runtime, a.scope, a.world);
    }
    if r in s.desired && Next(s, a).desired[r] == s.desired[r] {
      j := DesiredWasAccepted(freshness, run[..last], r);
      AcceptedEarlier(freshness, run, last, j, s.desired[r]);
    } else {
      j := last;
    }
  }

  /** What one step adds to the effects: nothing, or the effect of a command desired before it. */
  predicate AddsDesired(s: State, effects: seq<Effect>) {
    || effects == s.effects
    || (|effects| == |s.effects| + 1 && effects[..|s.effects|] == s.effects
        && var c := effects[|s.effects|].command;
           c.desired.runtime in s.desired && s.desired[c.desired.runtime] == c)
  }

  lemma StepEffects(s: State, a: Action)
    requires Filed(s)
    ensures AddsDesired(s, Next(s, a).effects)
  {
    if a.DoReconcile? {
      ReconcileFrame(s, a.runtime, a.scope, a.world);
    }
  }

  lemma LastEffects(freshness: int, run: seq<Action>)
    requires run != []
    ensures AddsDesired(Run(Initial(freshness), run[..|run| - 1]), Run(Initial(freshness), run).effects)
  {
    LastStep(Initial(freshness), run);
    Reachable(freshness, run[..|run| - 1]);
    StepEffects(Run(Initial(freshness), run[..|run| - 1]), run[|run| - 1]);
  }

  /** From `s` to `t` the effect is issued, the i-th of all, for the command desired in `s`. */
  predicate Issues(s: State, t: State, i: nat, e: Effect) {
    var r := e.command.desired.runtime;
    r in s.desired && s.desired[r] == e.command && |s.effects| == i && t.effects == s.effects + [e]
  }

  predicate IssuedAt(freshness: int, run: seq<Action>, k: nat, i: nat, e: Effect) {
    k < |run| && Issues(StateAt(freshness, run, k), StateAt(freshness, run, k + 1), i, e)
  }

  lemma OldOrIssued(s: State, t: State, i: nat)
    requires AddsDesired(s, t.effects) && i < |t.effects|
    ensures if i < |s.effects| then s.effects[i] == t.effects[i] else Issues(s, t, i, t.effects[i])
  {
    if i < |s.effects| {
      assert t.effects[..|s.effects|][i] == t.effects[i];
    } else {
      assert t.effects == t.effects[..i] + [t.effects[i]];
    }
  }

  lemma IssuedEarlier(freshness: int, run: seq<Action>, n: nat, k: nat, i: nat, e: Effect)
    requires n <= |run| && IssuedAt(freshness, run[..n], k, i, e)
    ensures IssuedAt(freshness, run, k, i, e)
  {
    assert run[..n][..k] == run[..k] && run[..n][..k + 1] == run[..k + 1];
  }

  /** The last step of a run issues the last effect, unless it was issued before. */
  lemma IssuedLast(freshness: int, run: seq<Action>, i: nat)
    requires run != [] && i < |Run(Initial(freshness), run).effects|
    ensures var s, e := Run(Initial(freshness), run[..|run| - 1]), Run(Initial(freshness), run).effects[i];
            if i < |s.effects| then s.effects[i] == e else IssuedAt(freshness, run, |run| - 1, i, e)
  {
    LastEffects(freshness, run);
    OldOrIssued(Run(Initial(freshness), run[..|run| - 1]), Run(Initial(freshness), run), i);
    assert run[..|run| - 1 + 1] == run;
  }

  /** Intent before effect: every effect of every run is issued by a step before which its command is
      the desired one of the runtime, accepted by the repository in an earlier step. */
  lemma {:induction false} EffectsFollowIntent(freshness: int, run: seq<Action>, i: nat) returns (j: nat, k: nat)
    requires i < |Run(Initial(freshness), run).effects|
    ensures var e := Run(Initial(freshness), run).effects[i];
            j < k && AcceptedAt(freshness, run, j, e.command) && IssuedAt(freshness, run, k, i, e)
    decreases |run|
  {
    var last, e := |run| - 1, Run(Initial(freshness), run).effects[i];
    IssuedLast(freshness, run, i);
    if i < |Run(Initial(freshness), run[..last]).effects| {
      j, k := EffectsFollowIntent(freshness, run[..last], i);
      IssuedEarlier(freshness, run, last, k, i, e);
    } else {
      k := last;
      j := DesiredWasAccepted(freshness, run[..last], e.command.desired.runtime);
    }
    AcceptedEarlier(freshness, run, last, j, e.command);
  }

  /** Observed means done: an OBSERVED fact carries an observation of that runtime and generation
      that meets the desired state; no fact is STALE; and an OBSERVED or APPLIED fact for REPLACE
      comes after a replacement that ran, unless the identity of the command had been used for
      another command before. */
  lemma ObservedMeansDone(freshness: int, run: seq<Action>, r: RuntimeId, k: nat)
    requires k < |FactsOf(Run(Initial(freshness), run), r)|
    ensures FactSound(Run(Initial(freshness), run), r, k)
  {
    Reachable(freshness, run);
    assert FactSound(Run(Initial(freshness), run), r, k);
  }

  predicate DistinctIds(commands: set<Command>) {
    forall a, b | a in commands && b in commands && a.desired.id == b.desired.id :: a == b
  }

  /** With distinct command identities OBSERVED for REPLACE implies that this replacement ran. */
  lemma ReplacementHappened(freshness: int, run: seq<Action>, r: RuntimeId, k: nat)
    requires var s := Run(Initial(freshness), run);
             k < |FactsOf(s, r)| && FactsOf(s, r)[k].result == Observed && FactsOf(s, r)[k].command.operation == Replace
    requires DistinctIds(Accepted(Initial(freshness), run))
    ensures var s := Run(Initial(freshness), run); Ran(s, FactsOf(s, r)[k].command)
  {
    var s := Run(Initial(freshness), run);
    Reachable(freshness, run);
    assert FactSound(s, r, k);
    assert forall j: nat | j < k ::
        FactSound(s, r, j) ==> FactsOf(s, r)[j].command in Accepted(Initial(freshness), run);
    assert !IdReused(FactsOf(s, r), k);
  }

  /** The identities of the observations recorded for one runtime are pairwise distinct, although
      they are built by pasting a number to the identity of the command. */
  lemma ObservationIdsDistinct(freshness: int, run: seq<Action>, r: RuntimeId, j: nat, k: nat)
    requires var facts := FactsOf(Run(Initial(freshness), run), r);
             j < k < |facts| && facts[j].observation.Some? && facts[k].observation.Some?
    ensures var facts := FactsOf(Run(Initial(freshness), run), r);
            facts[j].observation.value.id != facts[k].observation.value.id
  {
    ObservedMeansDone(freshness, run, r, j);
    ObservedMeansDone(freshness, run, r, k);
    var facts := FactsOf(Run(Initial(freshness), run), r);
    if ObservationId(facts[j].command, j) == ObservationId(facts[k].command, k) {
      SuffixUnique(facts[j].command.desired.id, facts[k].command.desired.id, j + 1, k + 1);
    }
  }

  /** The number after the last dash can be read back. */
  lemma SuffixUnique(a: string, b: string, m: nat, n: nat)
    requires a + "-" + CanonicalJson.Digits(m) == b + "-" + CanonicalJson.Digits(n)
    ensures m == n && a == b
  {
    CanonicalJson.DigitsRead(m);
    CanonicalJson.DigitsRead(n);
    LastDash(a, b, CanonicalJson.Digits(m), CanonicalJson.Digits(n));
  }

  lemma LastDash(a: string, b: string, u: string, v: string)
    requires a + "-" + u == b + "-" + v && '-' !in u && '-' !in v
    ensures a == b && u == v
  {
    var w := a + "-" + u;
    DashAt(w, a, b, u, v);
    DashAt(w, b, a, v, u);
    assert a == w[..|a|] && b == w[..|b|];
    assert u == w[|a| + 1..] && v == w[|b| + 1..];
  }

  lemma DashAt(w: string, a: string, b: string, u: string, v: string)
    requires w == a + "-" + u && w == b + "-" + v && '-' !in u
    ensures |b| <= |a|
  {
    assert w[|b|] == '-';
    assert forall i | |a| < i < |w| :: w[i] == u[i - |a| - 1];
  }

  // ---------- What a request and a reconcile do ----------

  /** What a request does: it is accepted exactly with authority and a command that repeats the
      desired one or is newer; then the command is persisted and, unless the manager crashes, the
      request is recorded; nothing else changes. */
  lemma RequestOutcome(s: State, c: Command, scope: string, now: Time, crashed: bool)
    ensures var r := c.desired.runtime;
            var (t, result) := Request(s, c, scope, now, crashed);
            var accepted := scope == c.scope
                            && (r in s.desired ==>
                                  s.desired[r] == c || s.desired[r].desired.generation < c.desired.generation);
            && t.effects == s.effects && t.freshness == s.freshness
            && t.desired == (if accepted then s.desired[r := c] else s.desired)
            && (result.Success? <==> accepted && !crashed)
            && (result.Success? ==> result.value == Fact(c, Requested, now, None))
            && t.facts == (if result.Success? then s.facts[r := FactsOf(s, r) + [Fact(c, Requested, now, None)]]
                           else s.facts)
  {
    var r := c.desired.runtime;
    assert r in s.desired && s.desired[r] == c ==> s.desired[r := c] == s.desired;
  }

  /** The state of the runtime is one that the operation aims at. */
  predicate InDesiredState(operation: Operation, state: NativeState) {
    match operation
    case Start => state == Running
    case Stop => state == Stopped || state == Terminated
    case Cancel => state == Terminated
    case Replace => state == Pending || state == Running
    case Observe => state != UnknownState
  }

  /** The provider's answer can be recorded: a lifetime above zero, and an identity of 200 bytes. */
  predicate CanRecord(s: State, c: Command, native: Option<NativeState>) {
    native.Some? ==>
      && s.freshness > 0
      && |CanonicalJson.Utf8(c.desired.id + "-"
                             + CanonicalJson.Digits(|FactsOf(s, c.desired.runtime)| + 1))| <= 200
  }

  /** The last fact leaves the effect in doubt. */
  predicate InDoubt(facts: seq<Fact>) {
    facts != [] && facts[|facts| - 1].result in {Unknown, Stale, RecoveryRequired}
  }

  /** The runtime is where the command wants it, so that there is nothing to do; a REPLACE counts as
      done only after a fact that shows the effect of its identity. */
  predicate NothingToDo(s: State, c: Command, before: Option<NativeState>) {
    && before.Some? && InDesiredState(c.operation, before.value)
    && (c.operation == Replace ==>
          exists k | 0 <= k < |FactsOf(s, c.desired.runtime)| ::
            && FactsOf(s, c.desired.runtime)[k].command.desired.id == c.desired.id
            && FactsOf(s, c.desired.runtime)[k].result in {Applied, Observed})
  }

  /** The reconcile may act on the desired command. */
  predicate Authorized(s: State, r: RuntimeId, scope: string) {
    r in s.desired && s.desired[r].scope == scope
  }

  /** The reconcile goes on to the effect of the command; only OBSERVE has none. */
  predicate GoesOn(s: State, c: Command, w: World) {
    CanRecord(s, c, w.before) && !NothingToDo(s, c, w.before) && !InDoubt(FactsOf(s, c.desired.runtime))
  }

  /** The effects that a reconcile of the command issues. */
  function EffectsOfReconcile(s: State, c: Command, w: World): seq<Effect> {
    if !GoesOn(s, c, w) then []
    else match c.operation
      case Start => [Effect(c, StartRuntime, w.attempt)]
      case Stop => [Effect(c, StopRuntime, w.attempt)]
      case Cancel => [Effect(c, StopRuntime, w.attempt)]
      case Replace => [Effect(c, ReplaceRuntime, w.attempt)]
      case Observe => []
  }

  /** What the reconcile records: the result and the answer of the provider that it rests on. */
  function Verdict(s: State, c: Command, w: World): Option<(CommandResult, Option<NativeState>)> {
    if !CanRecord(s, c, w.before) then None
    else if NothingToDo(s, c, w.before) then Some((Observed, w.before))
    else if InDoubt(FactsOf(s, c.desired.runtime)) then Some((RecoveryRequired, w.before))
    else if w.attempt.Raised? && c.operation != Observe then Some((RecoveryRequired, w.before))
    else if w.attempt.Crashed? || !CanRecord(s, c, w.after) then None
    else if w.after.None? || w.after == Some(UnknownState) then Some((Unknown, w.after))
    else if InDesiredState(c.operation, w.after.value) then Some((Observed, w.after))
    else Some((Applied, w.after))
  }

  /** The observation of the runtime, made at this time of this answer. */
  predicate Observes(o: Option<Observation>, c: Command, native: Option<NativeState>, now: Time, freshness: int) {
    && (o.Some? <==> native.Some?)
    && (o.Some? ==>
          && o.value.runtime == c.desired.runtime && o.value.generation == c.desired.generation
          && o.value.state == native.value && o.value.observedAt == now && o.value.deadline == now + freshness)
  }

  /** All that a reconcile does, from `s` to `t`. */
  ghost predicate Explains(s: State, r: RuntimeId, scope: string, w: World, t: State, result: Result<Fact, Error>) {
    && t.desired == s.desired && t.freshness == s.freshness
    && if !Authorized(s, r, scope) then
         && t == s && result == Failure(if r in s.desired then CommandScopeMismatch else DesiredCommandNotFound)
       else
         var c := s.desired[r];
         var verdict := Verdict(s, c, w);
         && t.effects == s.effects + EffectsOfReconcile(s, c, w)
         && (result.Success? <==> verdict.Some?)
         && (verdict.None? ==> t.facts == s.facts && result == Failure(
               if CanRecord(s, c, w.before) && w.attempt.Crashed? then Interrupted else InvalidObservation))
         && (verdict.Some? ==>
               && result.value.command == c && result.value.result == verdict.value.0
               && result.value.recordedAt == w.now
               && Observes(result.value.observation, c, verdict.value.1, w.now, s.freshness)
               && t.facts == s.facts[r := FactsOf(s, r) + [result.value]])
  }

  lemma LookMeans(s: State, c: Command, native: Option<NativeState>, now: Time)
    ensures var o := Normalize(s, c, native, now);
            && (o.Success? <==> CanRecord(s, c, native))
            && (o.Success? ==> Observes(o.value, c, native, now, s.freshness))
            && (o.Success? ==>
                  Classify(c.desired, o.value, now) ==
                    if native.None? || native == Some(UnknownState) then Unknown
                    else if InDesiredState(c.operation, native.value) then Observed else Applied)
  {
  }

  lemma EffectPathMeans(s: State, r: RuntimeId, observation: Option<Observation>, w: World)
    requires r in s.desired && s.desired[r].desired.runtime == r
    requires Normalize(s, s.desired[r], w.before, w.now) == Success(observation) && GoesOn(s, s.desired[r], w)
    ensures var (t, result) := ReconcileByEffect(s, s.desired[r], observation, w);
            Explains(s, r, s.desired[r].scope, w, t, result)
  {
    var c := s.desired[r];
    LookMeans(s, c, w.before, w.now);
    if w.attempt.Ran? || (w.attempt.Raised? && c.operation == Observe) {
      SecondLookMeans(s, r, observation, w);
    }
  }

  lemma SecondLookMeans(s: State, r: RuntimeId, observation: Option<Observation>, w: World)
    requires r in s.desired && s.desired[r].desired.runtime == r && GoesOn(s, s.desired[r], w)
    requires w.attempt.Ran? || (w.attempt.Raised? && s.desired[r].operation == Observe)
    ensures var (t, result) := ReconcileByEffect(s, s.desired[r], observation, w);
            Explains(s, r, s.desired[r].scope, w, t, result)
  {
    var c := s.desired[r];
    var t := if c.operation == Observe then s else s.(effects := s.effects + [EffectOf(c, w.attempt)]);
    assert FactsOf(t, r) == FactsOf(s, r);
    LookMeans(t, c, w.after, w.now);
  }

  /** A reconcile does what it should in every state that files commands under their runtimes. */
  lemma ReconcileMeans(s: State, r: RuntimeId, scope: string, w: World)
    requires Filed(s)
    ensures var (t, result) := Reconcile(s, r, scope, w); Explains(s, r, scope, w, t, result)
  {
    if Authorized(s, r, scope) {
      var c := s.desired[r];
      assert c.desired.runtime == r;
      LookMeans(s, c, w.before, w.now);
      if GoesOn(s, c, w) {
        EffectPathMeans(s, r, Normalize(s, c, w.before, w.now).value, w);
      }
    }
  }

  /** In every reachable state an effect is issued if and only if the reconcile is authorized, the
      provider's answer can be recorded, the operation has an effect, the last fact leaves nothing in
      doubt, and the runtime is not already where the command wants it; the recorded result is the
      one that the case calls for. */
  lemma ReconcileOutcome(freshness: int, run: seq<Action>, r: RuntimeId, scope: string, w: World)
    ensures var s := Run(Initial(freshness), run);
            var (t, result) := Reconcile(s, r, scope, w);
            && Explains(s, r, scope, w, t, result)
            && (t.effects != s.effects <==>
                  && r in s.desired && s.desired[r].scope == scope && s.desired[r].operation != Observe
                  && CanRecord(s, s.desired[r], w.before) && !NothingToDo(s, s.desired[r], w.before)
                  && !InDoubt(FactsOf(s, r)))
  {
    var s := Run(Initial(freshness), run);
    Reachable(freshness, run);
    ReconcileMeans(s, r, scope, w);
    if r in s.desired {
      assert s.desired[r].desired.runtime == r;
    }
  }

  // ---------- Ambiguous effects ----------

  /** The effects on one runtime, in order. */
  function EffectsOn(effects: seq<Effect>, r: RuntimeId): seq<Effect> {
    if effects == [] then []
    else
      var last := |effects| - 1;
      EffectsOn(effects[..last], r) + if effects[last].command.desired.runtime == r then [effects[last]] else []
  }

  lemma EffectsOnAppend(effects: seq<Effect>, e: Effect, r: RuntimeId)
    ensures EffectsOn(effects + [e], r) == EffectsOn(effects, r) + if e.command.desired.runtime == r then [e] else []
  {
    assert (effects + [e])[..|effects|] == effects;
  }

  /** Commands are filed under their own runtime. */
  predicate Filed(s: State) {
    forall r {:trigger s.desired[r]} | r in s.desired :: s.desired[r].desired.runtime == r
  }

  /** An OBSERVED fact has been recorded for the runtime since `from`. */
  predicate ObservedSince(facts: seq<Fact>, from: nat) {
    exists k | from <= k < |facts| :: facts[k].result == Observed
  }

  /** A reconcile issues at most one effect, that of the desired command, and leaves the other
      runtimes alone. */
  lemma ReconcileFrame(s: State, r: RuntimeId, scope: string, w: World)
    requires Filed(s)
    ensures var t := Reconcile(s, r, scope, w).0;
            && t.desired == s.desired && FactsOf(s, r) <= FactsOf(t, r)
            && (forall q | q != r :: FactsOf(t, q) == FactsOf(s, q))
            && (|| t.effects == s.effects
                || (r in s.desired && s.desired[r].operation != Observe
                    && t.effects == s.effects + [EffectOf(s.desired[r], w.attempt)]))
  {
    if r in s.desired {
      assert s.desired[r].desired.runtime == r;
      EffectPathFrame(s, r, w);
    }
  }

  lemma EffectPathFrame(s: State, r: RuntimeId, w: World)
    requires r in s.desired && s.desired[r].desired.runtime == r
    ensures forall o :: var t := ReconcileByEffect(s, s.desired[r], o, w).0;
              && t.desired == s.desired && FactsOf(s, r) <= FactsOf(t, r)
              && (forall q | q != r :: FactsOf(t, q) == FactsOf(s, q))
              && (t.effects == s.effects || (s.desired[r].operation != Observe
                                             && t.effects == s.effects + [EffectOf(s.desired[r], w.attempt)]))
  {
  }

  lemma ReconcileEffects(s: State, r: RuntimeId, scope: string, w: World, q: RuntimeId)
    requires Filed(s) && q != r
    ensures EffectsOn(Reconcile(s, r, scope, w).0.effects, q) == EffectsOn(s.effects, q)
  {
    ReconcileFrame(s, r, scope, w);
    if r in s.desired {
      assert s.desired[r].desired.runtime == r;
      if s.desired[r].operation != Observe {
        EffectsOnAppend(s.effects, EffectOf(s.desired[r], w.attempt), q);
      }
    }
  }

  /** After an ambiguous fact no effect is issued on the runtime until an OBSERVED fact is recorded
      or the next request, whatever else happens, crashes included. */
  lemma {:induction false} AmbiguousIsNotReissued(s: State, run: seq<Action>, r: RuntimeId)
    requires Filed(s) && LastIsAmbiguous(FactsOf(s, r))
    requires forall a | a in run :: !(a.DoRequest? && a.command.desired.runtime == r)
    ensures var t := Run(s, run);
            && FactsOf(s, r) <= FactsOf(t, r)
            && (ObservedSince(FactsOf(t, r), |FactsOf(s, r)|) || EffectsOn(t.effects, r) == EffectsOn(s.effects, r))
    decreases |run|
  {
    if run != [] {
      var s1 := Next(s, run[0]);
      assert run[0] in run;
      AmbiguousStep(s, run[0], r);
      if LastIsAmbiguous(FactsOf(s1, r)) {
        AmbiguousIsNotReissued(s1, run[1..], r);
      } else {
        FactsGrow(s1, run[1..], r);
      }
      var t, n := Run(s1, run[1..]), |FactsOf(s, r)|;
      if ObservedSince(FactsOf(s1, r), n) {
        var k :| n <= k < |FactsOf(s1, r)| && FactsOf(s1, r)[k].result == Observed;
        assert FactsOf(t, r)[k].result == Observed;
      }
    }
  }

  lemma AmbiguousStep(s: State, a: Action, r: RuntimeId)
    requires Filed(s) && LastIsAmbiguous(FactsOf(s, r)) && !(a.DoRequest? && a.command.desired.runtime == r)
    ensures var t := Next(s, a);
            && Filed(t) && FactsOf(s, r) <= FactsOf(t, r) && EffectsOn(t.effects, r) == EffectsOn(s.effects, r)
            && (LastIsAmbiguous(FactsOf(t, r)) || ObservedSince(FactsOf(t, r), |FactsOf(s, r)|))
  {
    if a.DoReconcile? {
      ReconcileFrame(s, a.runtime, a.scope, a.world);
      if a.runtime != r {
        ReconcileEffects(s, a.runtime, a.scope, a.world, r);
      } else {
        var t := Next(s, a);
        assert |FactsOf(t, r)| > |FactsOf(s, r)| ==>
            FactsOf(t, r)[|FactsOf(s, r)|] == FactsOf(t, r)[|FactsOf(t, r)| - 1];
      }
    }
  }

  lemma {:induction false} FactsGrow(s: State, run: seq<Action>, r: RuntimeId)
    requires Filed(s)
    ensures FactsOf(s, r) <= FactsOf(Run(s, run), r)
    decreases |run|
  {
    if run != [] {
      if run[0].DoReconcile? {
        ReconcileFrame(s, run[0].runtime, run[0].scope, run[0].world);
      }
      FactsGrow(Next(s, run[0]), run[1..], r);
    }
  }

  /** A new request lifts the guard, also when it only repeats the desired command: the next
      reconcile that does not find the desired state issues the effect again. */
  lemma RequestLiftsTheGuard(s: State, r: RuntimeId, now: Time, w: World)
    requires Filed(s) && r in s.desired && s.desired[r].operation != Observe && w.before.None?
    ensures var c := s.desired[r];
            var t := Request(s, c, c.scope, now, false).0;
            Reconcile(t, r, c.scope, w).0.effects == s.effects + [EffectOf(c, w.attempt)]
  {
    var c := s.desired[r];
    assert c.desired.runtime == r && s.desired[r := c] == s.desired;
  }

  /** The provider's answer can be normalized and satisfies a REPLACE. */
  predicate LooksReplaced(s: State, c: Command, before: Option<NativeState>) {
    && before.Some? && Satisfies(WantReplaced, before.value) && s.freshness > 0
    && |CanonicalJson.Utf8(ObservationId(c, |FactsOf(s, c.desired.runtime)|))| <= MAX_ID_BYTES
  }

  /** When a REPLACE counts as done although it never ran: of a command that the run has not accepted
      before, the reconcile after its request records OBSERVED without a replacement, if and only
      if the runtime looks replaced and some earlier fact shows the effect of another command with
      the same identity. */
  lemma ReplacementSkippedIff(freshness: int, run: seq<Action>, c: Command, now: Time, w: World)
    requires var s := Run(Initial(freshness), run);
             Persist(s, c).Some? && c !in Accepted(Initial(freshness), run) && c.operation == Replace
    ensures var s, r := Run(Initial(freshness), run), c.desired.runtime;
            var s1 := Request(s, c, c.scope, now, false).0;
            var (t, fact) := Reconcile(s1, r, c.scope, w);
            fact.Success? && fact.value.result == Observed && !Ran(t, c)
            <==> LooksReplaced(s1, c, w.before) && AlreadyIssued(FactsOf(s, r), c.desired.id)
  {
    var s, r := Run(Initial(freshness), run), c.desired.runtime;
    Reachable(freshness, run);
    assert !Ran(s, c) by {
      forall i: nat | i < |s.effects| ensures s.effects[i].command != c {
        assert EffectSound(s, Accepted(Initial(freshness), run), i);
      }
    }
    var s1 := Request(s, c, c.scope, now, false).0;
    assert FactsOf(s1, r) == FactsOf(s, r) + [Fact(c, Requested, now, None)];
    IssuedIgnoresRequests(FactsOf(s, r), Fact(c, Requested, now, None), c.desired.id);
    assert s1.desired[r] == c && s1.effects == s.effects;
    FirstReconcile(s1, r, w);
  }

  /** The first reconcile of a REPLACE that has not run, when the guard does not hold it back. */
  lemma FirstReconcile(s: State, r: RuntimeId, w: World)
    requires r in s.desired && s.desired[r].desired.runtime == r && s.desired[r].operation == Replace
    requires !Ran(s, s.desired[r]) && !LastIsAmbiguous(FactsOf(s, r))
    ensures var c := s.desired[r];
            var (t, fact) := Reconcile(s, r, c.scope, w);
            && (fact.Success? ==> fact.value.command == c)
            && (fact.Success? && fact.value.result == Observed && !Ran(t, c)
                <==> LooksReplaced(s, c, w.before) && AlreadyIssued(FactsOf(s, r), c.desired.id))
  {
    var c := s.desired[r];
    var normalized := Normalize(s, c, w.before, w.now);
    if normalized.Success? {
      FreshLook(s, c, w.before, w.now);
      var t := ReconcileByEffect(s, c, normalized.value, w).0;
      assert t.effects[|s.effects|] == EffectOf(c, w.attempt);
      assert w.attempt.Ran? ==> Ran(t, c);
    }
  }

  lemma IssuedIgnoresRequests(facts: seq<Fact>, fact: Fact, id: string)
    requires fact.result == Requested
    ensures AlreadyIssued(facts + [fact], id) == AlreadyIssued(facts, id)
  {
    if AlreadyIssued(facts, id) {
      var k :| 0 <= k < |facts| && facts[k].command.desired.id == id && Issued(facts[k].result);
      assert (facts + [fact])[k] == facts[k];
    }
  }

  /** So command identities must be distinct: a REPLACE that reuses the identity of a START. */
  lemma ReusedIdSkipsReplacement(start: Command, replace: Command)
    requires start == Command("s", Desired("r", 1, WantRunning, "c"), Start, ("", ""))
    requires replace == Command("s", Desired("r", 2, WantReplaced, "c"), Replace, ("", ""))
    ensures var up := World(0, Some(Running), Attempt.Ran, None);
            var s1 := Request(Initial(1), start, "s", 0, false).0;
            var s2 := Reconcile(s1, "r", "s", up).0;
            var s3 := Request(s2, replace, "s", 0, false).0;
            var (s4, fact) := Reconcile(s3, "r", "s", up);
            fact.Success? && fact.value.result == Observed && fact.value.command == replace && !Ran(s4, replace)
  {
    StartIsObserved(start);
    ShortId(replace, 3);
    var up := World(0, Some(Running), Attempt.Ran, None);
    RequestThenLook(Reconcile(Request(Initial(1), start, "s", 0, false).0, "r", "s", up).0, replace, up);
  }

  lemma StartIsObserved(start: Command)
    requires start == Command("s", Desired("r", 1, WantRunning, "c"), Start, ("", ""))
    ensures var up := World(0, Some(Running), Attempt.Ran, None);
            var s := Reconcile(Request(Initial(1), start, "s", 0, false).0, "r", "s", up).0;
            && s.desired == map["r" := start] && s.effects == [] && s.freshness == 1
            && |FactsOf(s, "r")| == 2 && AlreadyIssued(FactsOf(s, "r"), "c")
  {
    var up := World(0, Some(Running), Attempt.Ran, None);
    var s1 := Request(Initial(1), start, "s", 0, false).0;
    assert FactsOf(s1, "r") == [Fact(start, Requested, 0, None)];
    ShortId(start, 1);
    var s2 := Reconcile(s1, "r", "s", up).0;
    assert FactsOf(s2, "r")[1].result == Observed && FactsOf(s2, "r")[1].command == start;
  }

  lemma RequestThenLook(s: State, c: Command, w: World)
    requires c.operation == Replace && Persist(s, c).Some? && AlreadyIssued(FactsOf(s, c.desired.runtime), c.desired.id)
    requires !Ran(s, c) && LooksReplaced(Request(s, c, c.scope, 0, false).0, c, w.before)
    ensures var (t, fact) := Reconcile(Request(s, c, c.scope, 0, false).0, c.desired.runtime, c.scope, w);
            fact.Success? && fact.value.result == Observed && fact.value.command == c && !Ran(t, c)
  {
    var r, s1 := c.desired.runtime, Request(s, c, c.scope, 0, false).0;
    assert FactsOf(s1, r) == FactsOf(s, r) + [Fact(c, Requested, 0, None)];
    IssuedIgnoresRequests(FactsOf(s, r), Fact(c, Requested, 0, None), c.desired.id);
    assert s1.desired[r] == c && s1.effects == s.effects;
    FirstReconcile(s1, r, w);
  }

  lemma ShortId(command: Command, count: nat)
    requires command.desired.id == "c" && count < 9
    ensures |CanonicalJson.Utf8(ObservationId(command, count))| <= MAX_ID_BYTES
  {
    var d := CanonicalJson.Digit(count + 1);
    assert ObservationId(command, count) == ['c', '-', d];
    assert ['c', '-', d][1..] == ['-', d] && ['-', d][1..] == [d] && [d][1..] == [];
    assert CanonicalJson.Utf8([]) == [] && CanonicalJson.Utf8([d]) == CanonicalJson.Utf8Char(d) + [];
    assert CanonicalJson.Utf8(['-', d]) == CanonicalJson.Utf8Char('-') + CanonicalJson.Utf8([d]);
  }
}
