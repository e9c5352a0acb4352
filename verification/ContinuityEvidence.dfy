/** The release continuity monitor (scripts/acceptance/continuity_monitor.py): the monitor that
    writes hash-chained evidence and the validator that accepts or refuses it. */
module ContinuityEvidence {
  import opened Wrappers

  const MAX_OBSERVATIONS := 7200

  datatype Sentinel = Public | OriginalStaging | Monitor | OtherSentinel(text: string)

  datatype Phase =
    | StartPhase | Observation | IndependentContinuation | StopPhase | CompletePhase | OtherPhase(text: string)

  datatype Category =
    | Match | Mismatch | Healthy | Unhealthy | NotRequired | NotObservedIndependently | OtherCategory(text: string)

  datatype Completion = Running | StopRequested | Complete | Failed | OtherCompletion(text: string)

  /** SHA-256, taken to be injective and never to be the zero digest that starts a chain. */
  datatype Digest = Zero | Of(body: Body) | Malformed(text: string)

  /** The five classes that a record gives for a probe. */
  datatype Classes = Classes(health: Category, pid: Category, start: Category, restart: Category, listener: Category)

  /** A record without its own digest. */
  datatype Body = Body(
    schemaCurrent: bool, ownership: string, sentinel: Sentinel, sequence: int, phase: Phase, classes: Classes,
    management: Category, completion: Completion, previous: Digest)

  datatype Record = Record(body: Body, digest: Digest)

  /** What is appended: everything but the position in the chain. */
  datatype Entry = Entry(sentinel: Sentinel, phase: Phase, classes: Classes, completion: Completion)

  const NO_PROBE := Classes(NotRequired, NotRequired, NotRequired, NotRequired, NotRequired)

  // ---------- The chain ----------

  function LastDigest(records: seq<Record>): Digest {
    if records == [] then Zero else records[|records| - 1].digest
  }

  function Link(own: string, records: seq<Record>, e: Entry): Record {
    var body := Body(true, own, e.sentinel, |records|, e.phase, e.classes, NotObservedIndependently, e.completion,
                     LastDigest(records));
    Record(body, Of(body))
  }

  predicate HoldsAt(records: seq<Record>, own: string, entries: seq<Entry>, k: nat)
    requires k < |records| == |entries|
  {
    records[k] == Link(own, records[..k], entries[k])
  }

  /** The evidence is the chain of the given entries. */
  predicate IsChain(records: seq<Record>, own: string, entries: seq<Entry>) {
    && |records| == |entries|
    && forall k: nat {:trigger HoldsAt(records, own, entries, k)} | k < |records| :: HoldsAt(records, own, entries, k)
  }

  /** The record has its place, names the digest before it and carries its own. */
  predicate LinkedAt(records: seq<Record>, k: nat)
    requires k < |records|
  {
    && records[k].body.sequence == k
    && records[k].body.previous == LastDigest(records[..k])
    && records[k].digest == Of(records[k].body)
  }

  predicate Linked(records: seq<Record>) {
    forall k: nat {:trigger LinkedAt(records, k)} | k < |records| :: LinkedAt(records, k)
  }

  lemma ChainIsLinked(records: seq<Record>, own: string, entries: seq<Entry>)
    requires IsChain(records, own, entries)
    ensures Linked(records)
  {
    forall k: nat | k < |records| ensures LinkedAt(records, k) {
      assert HoldsAt(records, own, entries, k);
    }
  }

  lemma ChainExtends(records: seq<Record>, own: string, entries: seq<Entry>, e: Entry)
    requires IsChain(records, own, entries)
    ensures IsChain(records + [Link(own, records, e)], own, entries + [e])
  {
    var longer := records + [Link(own, records, e)];
    forall k: nat | k < |longer| ensures HoldsAt(longer, own, entries + [e], k) {
      assert longer[..k] == records[..k];
      assert records[..|records|] == records;
      assert k < |records| ==> HoldsAt(records, own, entries, k);
    }
  }

  /** The last digest commits to everything before it. */
  lemma {:induction false} DigestDeterminesChain(a: seq<Record>, b: seq<Record>)
    requires Linked(a) && Linked(b) && a != [] && b != [] && LastDigest(a) == LastDigest(b)
    ensures a == b
    decreases |a|
  {
    var m, n := |a| - 1, |b| - 1;
    assert LinkedAt(a, m) && LinkedAt(b, n);
    if m > 0 {
      LinkedPrefix(a, m);
      LinkedPrefix(b, n);
      DigestDeterminesChain(a[..m], b[..m]);
    }
    assert a == a[..m] + [a[m]] && b == b[..n] + [b[n]];
  }

  lemma LinkedPrefix(records: seq<Record>, n: nat)
    requires Linked(records) && n <= |records|
    ensures Linked(records[..n])
  {
    forall k: nat | k < n ensures LinkedAt(records[..n], k) {
      assert LinkedAt(records, k) && records[..n][..k] == records[..k];
    }
  }

  // ---------- The validator ----------

  predicate Approved(c: Category) {
    !c.OtherCategory?
  }

  predicate Inconsistent(c: Category) {
    c == Mismatch || c == Unhealthy
  }

  predicate AnyInconsistent(c: Classes) {
    Inconsistent(c.health) || Inconsistent(c.pid) || Inconsistent(c.start) || Inconsistent(c.restart)
    || Inconsistent(c.listener)
  }

  /** The record uses the approved vocabulary only and belongs to the workspace. */
  predicate Admissible(body: Body, own: string) {
    && body.schemaCurrent && body.ownership == own
    && !body.sentinel.OtherSentinel? && !body.phase.OtherPhase? && !body.completion.OtherCompletion?
    && Approved(body.classes.health) && Approved(body.classes.pid) && Approved(body.classes.start)
    && Approved(body.classes.restart) && Approved(body.classes.listener) && Approved(body.management)
  }

  predicate IsProbe(phase: Phase) {
    phase == Observation || phase == IndependentContinuation
  }

  predicate Covers(records: seq<Record>, sentinel: Sentinel) {
    exists k | 0 <= k < |records| :: IsProbe(records[k].body.phase) && records[k].body.sentinel == sentinel
  }

  /** What the evidence must be to be accepted. */
  predicate Accepts(records: seq<Record>, own: string) {
    && 0 < |records| <= MAX_OBSERVATIONS * 2 + 4
    && Linked(records)
    && (forall k | 0 <= k < |records| :: Admissible(records[k].body, own) && !AnyInconsistent(records[k].body.classes))
    && records[0].body.phase == StartPhase
    && records[|records| - 1].body.phase == CompletePhase && records[|records| - 1].body.completion == Complete
    && Covers(records, Public) && Covers(records, OriginalStaging)
    && !Covers(records, Monitor)
  }

  datatype Refusal =
    | LengthOutsideBound | SequenceBroken | OwnershipMismatch | SentinelUnapproved | LifecycleInvalid | CategoryInvalid
    | ChainBroken | RecordAltered | LifecycleIncomplete | CoverageIncomplete | InconsistencyRecorded

  /** The checks on one record, in their order. */
  method CheckRecord(record: Record, sequence: nat, previous: Digest, own: string) returns (refusal: Option<Refusal>)
    ensures refusal.None? <==>
              && Admissible(record.body, own) && record.body.sequence == sequence
              && record.body.previous == previous && record.digest == Of(record.body)
  {
    var body := record.body;
    if !body.schemaCurrent || body.sequence != sequence {
      return Some(SequenceBroken);
    }
    if body.ownership != own {
      return Some(OwnershipMismatch);
    }
    if body.sentinel.OtherSentinel? {
      return Some(SentinelUnapproved);
    }
    if body.phase.OtherPhase? || body.completion.OtherCompletion? {
      return Some(LifecycleInvalid);
    }
    if !Approved(body.classes.health) || !Approved(body.classes.pid) {
      return Some(CategoryInvalid);
    }
    if !Approved(body.classes.start) || !Approved(body.classes.restart) || !Approved(body.classes.listener)
       || !Approved(body.management) {
      return Some(CategoryInvalid);
    }
    if body.previous != previous || record.digest.Malformed? {
      return Some(ChainBroken);
    }
    if record.digest != Of(body) {
      return Some(RecordAltered);
    }
    return None;
  }

  method ObservedSentinels(records: seq<Record>) returns (observed: set<Sentinel>)
    ensures forall x :: x in observed <==> Covers(records, x)
  {
    observed := {};
    for i := 0 to |records|
      invariant forall x :: x in observed <==>
                  exists k | 0 <= k < i :: IsProbe(records[k].body.phase) && records[k].body.sentinel == x
    {
      if IsProbe(records[i].body.phase) {
        observed := observed + {records[i].body.sentinel};
      }
    }
  }

  method HasInconsistency(records: seq<Record>) returns (found: bool)
    ensures found <==> exists k | 0 <= k < |records| :: AnyInconsistent(records[k].body.classes)
  {
    for i := 0 to |records|
      invariant forall k | 0 <= k < i :: !AnyInconsistent(records[k].body.classes)
    {
      if AnyInconsistent(records[i].body.classes) {
        return true;
      }
    }
    return false;
  }

  method ValidateEvidence(records: seq<Record>, own: string) returns (r: Result<seq<Record>, Refusal>)
    ensures r.Success? <==> Accepts(records, own)
    ensures r.Success? ==> r.value == records
  {
    if |records| == 0 || |records| > MAX_OBSERVATIONS * 2 + 4 {
      return Failure(LengthOutsideBound);
    }
    var previous := Zero;
    for i := 0 to |records|
      invariant previous == LastDigest(records[..i])
      invariant forall k | 0 <= k < i :: Admissible(records[k].body, own)
      invariant forall k: nat {:trigger LinkedAt(records, k)} | k < i :: LinkedAt(records, k)
    {
      var refusal := CheckRecord(records[i], i, previous, own);
      if refusal.Some? {
        assert !(LinkedAt(records, i) && Admissible(records[i].body, own));
        return Failure(refusal.value);
      }
      previous := records[i].digest;
      assert records[..i + 1][i] == records[i];
    }
    if records[0].body.phase != StartPhase || records[|records| - 1].body.phase != CompletePhase
       || records[|records| - 1].body.completion != Complete {
      return Failure(LifecycleIncomplete);
    }
    var observed := ObservedSentinels(records);
    OnlyApprovedCovered(records, own);
    assert observed == {Public, OriginalStaging} <==>
           Covers(records, Public) && Covers(records, OriginalStaging) && !Covers(records, Monitor);
    if observed != {Public, OriginalStaging} {
      return Failure(CoverageIncomplete);
    }
    var inconsistent := HasInconsistency(records);
    if inconsistent {
      return Failure(InconsistencyRecorded);
    }
    return Success(records);
  }

  lemma OnlyApprovedCovered(records: seq<Record>, own: string)
    requires forall k | 0 <= k < |records| :: Admissible(records[k].body, own)
    ensures forall x | Covers(records, x) :: x == Public || x == OriginalStaging || x == Monitor
  {
    forall x | Covers(records, x) ensures x == Public || x == OriginalStaging || x == Monitor {
      var k :| 0 <= k < |records| && IsProbe(records[k].body.phase) && records[k].body.sentinel == x;
      assert Admissible(records[k].body, own);
    }
  }

  // ---------- The monitor ----------

  datatype Contract = Contract(interval: int, maximum: int, sentinels: seq<Sentinel>)

  predicate ValidContract(c: Contract) {
    && 1 <= c.interval <= 60 && c.interval <= c.maximum <= 21600
    && (c.sentinels == [Public, OriginalStaging] || c.sentinels == [OriginalStaging, Public])
  }

  datatype Probe = Probe(health: Category, pid: string, began: string, restarts: string, listener: Category)

  /** What the monitor meets: the time that has passed when a round is about to start, what a
      sentinel's probe answers in a round, and whether the stop file is there after a round. */
  datatype World = World(elapsed: nat -> real, probe: (nat, Sentinel) -> Probe, stop: nat -> bool)

  function ClassOf(value: string, base: string): Category {
    if value == base then Match else Mismatch
  }

  /** A probe compared with the first one of its sentinel. */
  function Compare(p: Probe, base: Probe): Classes {
    Classes(p.health, ClassOf(p.pid, base.pid), ClassOf(p.began, base.began), ClassOf(p.restarts, base.restarts),
            p.listener)
  }

  function ProbeEntry(c: Contract, w: World, round: nat, i: nat): Entry
    requires i < |c.sentinels|
  {
    Entry(c.sentinels[i], if round == 0 then Observation else IndependentContinuation,
          Compare(w.probe(round, c.sentinels[i]), w.probe(0, c.sentinels[i])), Running)
  }

  function RoundEntries(c: Contract, w: World, round: nat, n: nat): (r: seq<Entry>)
    requires n <= |c.sentinels|
    ensures |r| == n && forall i | 0 <= i < n :: r[i] == ProbeEntry(c, w, round, i)
  {
    if n == 0 then [] else RoundEntries(c, w, round, n - 1) + [ProbeEntry(c, w, round, n - 1)]
  }

  /** The entries of the first rounds, after the entry that opens the evidence. */
  function Opening(c: Contract, w: World, rounds: nat): seq<Entry> {
    if rounds == 0 then [Entry(Monitor, StartPhase, NO_PROBE, Running)]
    else Opening(c, w, rounds - 1) + RoundEntries(c, w, rounds - 1, |c.sentinels|)
  }

  const STOP_ENTRIES :=
    [Entry(Monitor, StopPhase, NO_PROBE, StopRequested), Entry(Monitor, CompletePhase, NO_PROBE, Complete)]

  const EXPIRY_ENTRIES := [Entry(Monitor, StopPhase, NO_PROBE, Failed)]

  /** All entries of a run that ended after the given rounds. */
  function Entries(c: Contract, w: World, rounds: nat, stopped: bool): seq<Entry> {
    Opening(c, w, rounds) + if stopped then STOP_ENTRIES else EXPIRY_ENTRIES
  }

  predicate MayStart(c: Contract, w: World, round: nat) {
    w.elapsed(round) <= c.maximum as real && round < MAX_OBSERVATIONS
  }

  /** The run ends after these rounds: by request after the last one, or because the next round
      may not start. */
  ghost predicate EndsAfter(c: Contract, w: World, rounds: nat, stopped: bool) {
    && (forall k: nat | k < rounds :: MayStart(c, w, k))
    && (forall k: nat {:trigger w.stop(k)} | k < rounds :: w.stop(k) <==> stopped && k == rounds - 1)
    && (if stopped then rounds > 0 else !MayStart(c, w, rounds))
  }

  /** When a run ends, in the terms of its world: every round up to the last starts within the maximal
      runtime and among the first 7200, the stop file is seen after no round but the last of a run
      that was stopped, and else the next round comes too late or is one too many. */
  lemma EndingMeans(c: Contract, w: World, rounds: nat, stopped: bool)
    requires EndsAfter(c, w, rounds, stopped)
    ensures rounds <= 7200 && forall k: nat | k < rounds :: w.elapsed(k) <= c.maximum as real
    ensures stopped ==> rounds >= 1 && w.stop(rounds - 1)
    ensures forall k: nat | k < rounds && !(stopped && k == rounds - 1) :: !w.stop(k)
    ensures !stopped ==> rounds == 7200 || w.elapsed(rounds) > c.maximum as real
  {
    forall k: nat | k < rounds ensures w.elapsed(k) <= c.maximum as real && k < 7200 {
      assert MayStart(c, w, k);
    }
    if rounds > 0 {
      assert MayStart(c, w, rounds - 1);
    }
  }

  /** The baseline after some rounds holds the first probe of every sentinel. */
  ghost predicate IsBaseline(baseline: map<Sentinel, Probe>, c: Contract, w: World, rounds: nat) {
    && (forall x {:trigger baseline[x]} | x in baseline :: baseline[x] == w.probe(0, x))
    && (rounds > 0 ==> forall x | x in c.sentinels :: x in baseline)
  }

  /** The evidence file together with the place in the chain that the monitor keeps. */
  class EvidenceFile {
    const own: string
    var records: seq<Record>
    var previous: Digest
    var sequence: nat
    ghost var entries: seq<Entry>

    ghost predicate Valid()
      reads this
    {
      sequence == |records| && previous == LastDigest(records) && IsChain(records, own, entries)
    }

    constructor (own: string)
      ensures Valid() && this.own == own && entries == []
    {
      this.own := own;
      records, previous, sequence, entries := [], Zero, 0, [];
    }

    method Append(e: Entry)
      requires Valid()
      modifies this
      ensures Valid() && entries == old(entries) + [e] && old(records) <= records
    {
      ChainExtends(records, own, entries, e);
      var body := Body(true, own, e.sentinel, sequence, e.phase, e.classes, NotObservedIndependently, e.completion,
                       previous);
      var record := Record(body, Of(body));
      records := records + [record];
      previous := record.digest;
      sequence := sequence + 1;
      entries := entries + [e];
    }

    /** One round of probes; the first probe of a sentinel is its baseline. */
    method Observe(c: Contract, w: World, round: nat, baseline: map<Sentinel, Probe>)
      returns (known: map<Sentinel, Probe>)
      requires Valid() && entries == Opening(c, w, round)
      requires IsBaseline(baseline, c, w, round)
      modifies this
      ensures Valid() && entries == Opening(c, w, round + 1)
      ensures IsBaseline(known, c, w, round + 1)
    {
      known := baseline;
      ghost var before := entries;
      for i := 0 to |c.sentinels|
        invariant Valid() && entries == before + RoundEntries(c, w, round, i)
        invariant forall x {:trigger known[x]} | x in known :: known[x] == w.probe(0, x)
        invariant forall x | x in baseline :: x in known
        invariant forall k | 0 <= k < i :: c.sentinels[k] in known
      {
        var identity := c.sentinels[i];
        var probe := w.probe(round, identity);
        if identity !in known {
          known := known[identity := probe];
        }
        Append(Entry(identity, if round == 0 then Observation else IndependentContinuation,
                     Compare(probe, known[identity]), Running));
      }
    }

    /** The last entries: those of a stop on request, or that of an expired run. */
    method Finish(stopped: bool)
      requires Valid()
      modifies this
      ensures Valid() && entries == old(entries) + if stopped then STOP_ENTRIES else EXPIRY_ENTRIES
    {
      if stopped {
        Append(STOP_ENTRIES[0]);
        Append(STOP_ENTRIES[1]);
      } else {
        Append(EXPIRY_ENTRIES[0]);
      }
    }

    method RunMonitor(c: Contract, w: World) returns (rounds: nat, stopped: bool)
      requires Valid() && entries == []
      modifies this
      ensures Valid() && entries == Entries(c, w, rounds, stopped) && EndsAfter(c, w, rounds, stopped)
    {
      Append(Entry(Monitor, StartPhase, NO_PROBE, Running));
      rounds, stopped := 0, false;
      var baseline: map<Sentinel, Probe> := map[];
      while w.elapsed(rounds) <= c.maximum as real && rounds < MAX_OBSERVATIONS
        invariant Valid() && entries == Opening(c, w, rounds)
        invariant rounds <= MAX_OBSERVATIONS
        invariant forall k: nat | k < rounds :: MayStart(c, w, k)
        invariant forall k: nat {:trigger w.stop(k)} | k < rounds :: !w.stop(k)
        invariant IsBaseline(baseline, c, w, rounds)
        decreases MAX_OBSERVATIONS - rounds
      {
        baseline := Observe(c, w, rounds, baseline);
        rounds := rounds + 1;
        if w.stop(rounds - 1) {
          Finish(true);
          return rounds, true;
        }
      }
      Finish(false);
    }
  }

  /** The monitor as it is started: a contract that is not valid writes no evidence at all. */
  method Start(own: string, c: Contract, w: World) returns (records: seq<Record>, rounds: nat, stopped: bool)
    ensures !ValidContract(c) ==> records == [] && !stopped
    ensures ValidContract(c) ==>
              IsChain(records, own, Entries(c, w, rounds, stopped)) && EndsAfter(c, w, rounds, stopped)
  {
    if !ValidContract(c) {
      return [], 0, false;
    }
    var file := new EvidenceFile(own);
    rounds, stopped := file.RunMonitor(c, w);
    records := file.records;
  }

  // ---------- Producer and validator agree ----------

  /** The probe was consistent: good answers of its own, and the same process as at first. */
  predicate Consistent(p: Probe, base: Probe) {
    && p.health in {Match, Healthy, NotRequired, NotObservedIndependently}
    && p.listener in {Match, Healthy, NotRequired, NotObservedIndependently}
    && p.pid == base.pid && p.began == base.began && p.restarts == base.restarts
  }

  ghost predicate AllConsistent(c: Contract, w: World, rounds: nat) {
    forall k: nat, i: nat {:trigger ProbeEntry(c, w, k, i)} | k < rounds && i < |c.sentinels| ::
      Consistent(w.probe(k, c.sentinels[i]), w.probe(0, c.sentinels[i]))
  }

  lemma {:induction false} OpeningEntries(c: Contract, w: World, rounds: nat)
    requires |c.sentinels| == 2
    ensures var o := Opening(c, w, rounds);
            && |o| == 1 + 2 * rounds && o[0] == Entry(Monitor, StartPhase, NO_PROBE, Running)
            && forall k: nat, i: nat {:trigger ProbeEntry(c, w, k, i)} | k < rounds && i < 2 ::
                 o[1 + 2 * k + i] == ProbeEntry(c, w, k, i)
  {
    if rounds > 0 {
      OpeningEntries(c, w, rounds - 1);
      var o, before := Opening(c, w, rounds), Opening(c, w, rounds - 1);
      forall k: nat, i: nat | k < rounds && i < 2 ensures o[1 + 2 * k + i] == ProbeEntry(c, w, k, i) {
        assert k < rounds - 1 ==> o[1 + 2 * k + i] == before[1 + 2 * k + i];
      }
    }
  }

  /** Each position of the opening after the first belongs to one probe. */
  lemma OpeningAt(c: Contract, w: World, rounds: nat, n: nat)
    requires |c.sentinels| == 2 && 1 <= n < 1 + 2 * rounds
    ensures |Opening(c, w, rounds)| == 1 + 2 * rounds
    ensures Opening(c, w, rounds)[n] == ProbeEntry(c, w, (n - 1) / 2, (n - 1) % 2)
  {
    OpeningEntries(c, w, rounds);
    assert Opening(c, w, rounds)[1 + 2 * ((n - 1) / 2) + (n - 1) % 2] == ProbeEntry(c, w, (n - 1) / 2, (n - 1) % 2);
  }

  /** An entry that the validator does not object to. */
  predicate GoodEntry(e: Entry) {
    && Approved(e.classes.health) && Approved(e.classes.pid) && Approved(e.classes.start)
    && Approved(e.classes.restart) && Approved(e.classes.listener) && !AnyInconsistent(e.classes)
  }

  lemma ProbeIsGood(c: Contract, w: World, k: nat, i: nat)
    requires i < |c.sentinels|
    ensures GoodEntry(ProbeEntry(c, w, k, i)) <==>
              Consistent(w.probe(k, c.sentinels[i]), w.probe(0, c.sentinels[i]))
  {
  }

  lemma GoodEntriesIff(c: Contract, w: World, rounds: nat, stopped: bool)
    requires ValidContract(c)
    ensures (forall n | 0 <= n < |Entries(c, w, rounds, stopped)| :: GoodEntry(Entries(c, w, rounds, stopped)[n]))
            <==> AllConsistent(c, w, rounds)
  {
    var es, o := Entries(c, w, rounds, stopped), Opening(c, w, rounds);
    OpeningEntries(c, w, rounds);
    if forall n | 0 <= n < |es| :: GoodEntry(es[n]) {
      forall k: nat, i: nat | k < rounds && i < 2
        ensures Consistent(w.probe(k, c.sentinels[i]), w.probe(0, c.sentinels[i]))
      {
        assert es[1 + 2 * k + i] == o[1 + 2 * k + i] == ProbeEntry(c, w, k, i);
        ProbeIsGood(c, w, k, i);
      }
    }
    if AllConsistent(c, w, rounds) {
      forall n | 0 <= n < |es| ensures GoodEntry(es[n]) {
        if 1 <= n < |o| {
          OpeningAt(c, w, rounds, n);
          var k, i := (n - 1) / 2, (n - 1) % 2;
          ProbeIsGood(c, w, k, i);
          assert ProbeEntry(c, w, k, i) == es[n];
        }
      }
    }
  }

  /** Only the last entry of a run that was stopped completes it, and only probes are probes. */
  lemma Lifecycle(c: Contract, w: World, rounds: nat, stopped: bool, n: nat)
    requires ValidContract(c) && n < |Entries(c, w, rounds, stopped)|
    ensures var es := Entries(c, w, rounds, stopped); var e := es[n];
            && (e.phase == CompletePhase <==> stopped && n == |es| - 1)
            && (e.phase == StartPhase <==> n == 0)
            && (e.completion == Complete <==> stopped && n == |es| - 1)
            && (IsProbe(e.phase) <==> 1 <= n <= 2 * rounds)
            && (IsProbe(e.phase) ==> e.sentinel == Public || e.sentinel == OriginalStaging)
            && !e.sentinel.OtherSentinel? && !e.phase.OtherPhase? && !e.completion.OtherCompletion?
            && |es| == 1 + 2 * rounds + if stopped then 2 else 1
  {
    OpeningEntries(c, w, rounds);
    if 1 <= n <= 2 * rounds {
      OpeningAt(c, w, rounds, n);
    }
  }

  lemma BothCovered(records: seq<Record>, own: string, c: Contract, w: World, rounds: nat, stopped: bool)
    requires ValidContract(c) && IsChain(records, own, Entries(c, w, rounds, stopped))
    ensures rounds > 0 ==> Covers(records, Public) && Covers(records, OriginalStaging)
    ensures !Covers(records, Monitor)
  {
    var es := Entries(c, w, rounds, stopped);
    if rounds > 0 {
      OpeningEntries(c, w, rounds);
      assert es[1] == ProbeEntry(c, w, 0, 0) && es[2] == ProbeEntry(c, w, 0, 1);
      assert HoldsAt(records, own, es, 1) && HoldsAt(records, own, es, 2);
    }
    forall n | 0 <= n < |records| && IsProbe(records[n].body.phase) ensures records[n].body.sentinel != Monitor {
      Lifecycle(c, w, rounds, stopped, n);
      assert HoldsAt(records, own, es, n);
    }
  }

  lemma AdmissibleIff(records: seq<Record>, own: string, c: Contract, w: World, rounds: nat, stopped: bool)
    requires ValidContract(c) && IsChain(records, own, Entries(c, w, rounds, stopped))
    ensures (forall n | 0 <= n < |records| ::
               Admissible(records[n].body, own) && !AnyInconsistent(records[n].body.classes))
            <==> AllConsistent(c, w, rounds)
  {
    var es := Entries(c, w, rounds, stopped);
    GoodEntriesIff(c, w, rounds, stopped);
    forall n | 0 <= n < |records|
      ensures Admissible(records[n].body, own) && !AnyInconsistent(records[n].body.classes) <==> GoodEntry(es[n])
    {
      Lifecycle(c, w, rounds, stopped, n);
      assert HoldsAt(records, own, es, n);
    }
  }

  /** Producer and validator agree: the evidence of a run is accepted exactly when the run was
      stopped on request and every probe in it was consistent; its length is within the bound. */
  lemma AcceptedIff(records: seq<Record>, own: string, c: Contract, w: World, rounds: nat, stopped: bool)
    requires ValidContract(c) && EndsAfter(c, w, rounds, stopped)
    requires IsChain(records, own, Entries(c, w, rounds, stopped))
    ensures Accepts(records, own) <==> stopped && AllConsistent(c, w, rounds)
    ensures |records| <= MAX_OBSERVATIONS * 2 + 3
  {
    ChainIsLinked(records, own, Entries(c, w, rounds, stopped));
    Lifecycle(c, w, rounds, stopped, 0);
    Lifecycle(c, w, rounds, stopped, |records| - 1);
    AdmissibleIff(records, own, c, w, rounds, stopped);
    BothCovered(records, own, c, w, rounds, stopped);
    assert HoldsAt(records, own, Entries(c, w, rounds, stopped), 0);
    assert HoldsAt(records, own, Entries(c, w, rounds, stopped), |records| - 1);
    assert rounds > 0 ==> MayStart(c, w, rounds - 1);
  }

  /** How the evidence of a run begins and ends. */
  lemma EvidenceEnds(records: seq<Record>, own: string, c: Contract, w: World, rounds: nat, stopped: bool)
    requires ValidContract(c) && IsChain(records, own, Entries(c, w, rounds, stopped))
    ensures |records| == 1 + 2 * rounds + (if stopped then 2 else 1)
    ensures Says(records[0], Monitor, StartPhase, Running)
    ensures stopped ==>
              && Says(records[|records| - 2], Monitor, StopPhase, StopRequested)
              && Says(records[|records| - 1], Monitor, CompletePhase, Complete)
    ensures !stopped ==> Says(records[|records| - 1], Monitor, StopPhase, Failed)
  {
    var es := Entries(c, w, rounds, stopped);
    OpeningEntries(c, w, rounds);
    assert HoldsAt(records, own, es, 0) && HoldsAt(records, own, es, |es| - 1) && HoldsAt(records, own, es, |es| - 2);
  }

  /** What the evidence holds of each probe of each round: its answers, and how it compares with the
      first probe of its sentinel. */
  lemma EvidenceShows(records: seq<Record>, own: string, c: Contract, w: World, rounds: nat, stopped: bool,
                      k: nat, i: nat)
    requires ValidContract(c) && IsChain(records, own, Entries(c, w, rounds, stopped)) && k < rounds && i < 2
    ensures 1 + 2 * k + i < |records|
    ensures var r := records[1 + 2 * k + i];
            && Says(r, c.sentinels[i], if k == 0 then Observation else IndependentContinuation, Running)
            && Shows(r.body.classes, w.probe(k, c.sentinels[i]), w.probe(0, c.sentinels[i]))
  {
    var es := Entries(c, w, rounds, stopped);
    OpeningEntries(c, w, rounds);
    assert Opening(c, w, rounds)[1 + 2 * k + i] == ProbeEntry(c, w, k, i);
    assert HoldsAt(records, own, es, 1 + 2 * k + i);
  }

  predicate Says(r: Record, sentinel: Sentinel, phase: Phase, completion: Completion) {
    r.body.sentinel == sentinel && r.body.phase == phase && r.body.completion == completion
  }

  /** The classes show the answers of the probe, and MATCH exactly where it agrees with the first. */
  predicate Shows(classes: Classes, p: Probe, first: Probe) {
    && classes.health == p.health && classes.listener == p.listener
    && classes.pid == (if p.pid == first.pid then Match else Mismatch)
    && classes.start == (if p.began == first.began then Match else Mismatch)
    && classes.restart == (if p.restarts == first.restarts then Match else Mismatch)
  }

  /** What a record of accepted evidence looks like, field by field. */
  predicate LooksGood(records: seq<Record>, k: nat, own: string)
    requires k < |records|
  {
    var body := records[k].body;
    && body.schemaCurrent && body.ownership == own && body.sequence == k
    && body.sentinel in {Public, OriginalStaging, Monitor}
    && body.phase in {StartPhase, Observation, IndependentContinuation, StopPhase, CompletePhase}
    && body.completion in {Running, StopRequested, Complete, Failed}
    && body.management in {Match, Mismatch, Healthy, Unhealthy, NotRequired, NotObservedIndependently}
    && body.classes.health in {Match, Healthy, NotRequired, NotObservedIndependently}
    && body.classes.pid in {Match, Healthy, NotRequired, NotObservedIndependently}
    && body.classes.start in {Match, Healthy, NotRequired, NotObservedIndependently}
    && body.classes.restart in {Match, Healthy, NotRequired, NotObservedIndependently}
    && body.classes.listener in {Match, Healthy, NotRequired, NotObservedIndependently}
    && body.previous == (if k == 0 then Zero else records[k - 1].digest)
    && records[k].digest == Of(body)
  }

  /** Some record of a probe is about the sentinel. */
  predicate IsProbed(records: seq<Record>, sentinel: Sentinel) {
    exists k | 0 <= k < |records| ::
      records[k].body.sentinel == sentinel && records[k].body.phase in {Observation, IndependentContinuation}
  }

  lemma LooksGoodIff(records: seq<Record>, k: nat, own: string)
    requires k < |records|
    ensures LooksGood(records, k, own) <==>
              LinkedAt(records, k) && Admissible(records[k].body, own) && !AnyInconsistent(records[k].body.classes)
  {
    assert k > 0 ==> records[..k][k - 1] == records[k - 1];
  }

  lemma CoversIff(records: seq<Record>, sentinel: Sentinel)
    ensures Covers(records, sentinel) <==> IsProbed(records, sentinel)
  {
    if Covers(records, sentinel) {
      var k :| 0 <= k < |records| && IsProbe(records[k].body.phase) && records[k].body.sentinel == sentinel;
      assert records[k].body.phase in {Observation, IndependentContinuation};
    }
    if IsProbed(records, sentinel) {
      var k :| 0 <= k < |records|
        && records[k].body.sentinel == sentinel && records[k].body.phase in {Observation, IndependentContinuation};
      assert IsProbe(records[k].body.phase);
    }
  }

  /** Accepted evidence, field by field: 1 to 14404 records that look good, from START to COMPLETE, with
      probes of both sentinels and of nothing else. */
  lemma AcceptedMeans(records: seq<Record>, own: string)
    ensures Accepts(records, own) <==>
              && 1 <= |records| <= 14404
              && (forall k: nat {:trigger LooksGood(records, k, own)} | k < |records| :: LooksGood(records, k, own))
              && records[0].body.phase == StartPhase
              && records[|records| - 1].body.phase == CompletePhase
              && records[|records| - 1].body.completion == Complete
              && IsProbed(records, Public) && IsProbed(records, OriginalStaging) && !IsProbed(records, Monitor)
  {
    CoversIff(records, Public);
    CoversIff(records, OriginalStaging);
    CoversIff(records, Monitor);
    forall k: nat | k < |records|
      ensures LooksGood(records, k, own) <==>
                LinkedAt(records, k) && Admissible(records[k].body, own) && !AnyInconsistent(records[k].body.classes)
    {
      LooksGoodIff(records, k, own);
    }
    if Accepts(records, own) {
      forall k: nat | k < |records| ensures LooksGood(records, k, own) { assert LinkedAt(records, k); }
    }
    if forall k: nat {:trigger LooksGood(records, k, own)} | k < |records| :: LooksGood(records, k, own) {
      forall k: nat | k < |records|
        ensures LinkedAt(records, k) && Admissible(records[k].body, own) && !AnyInconsistent(records[k].body.classes)
      {
        assert LooksGood(records, k, own);
      }
    }
  }

  /** Evidence that a crash or an edit cut short is refused, whatever the run was like. */
  lemma ProperPrefixRefused(
    records: seq<Record>, own: string, c: Contract, w: World, rounds: nat, stopped: bool, n: nat)
    requires ValidContract(c) && IsChain(records, own, Entries(c, w, rounds, stopped)) && n < |records|
    ensures !Accepts(records[..n], own)
  {
    if n > 0 {
      Lifecycle(c, w, rounds, stopped, n - 1);
      assert HoldsAt(records, own, Entries(c, w, rounds, stopped), n - 1);
      assert records[..n][n - 1].body.phase != CompletePhase;
    }
  }

  /** Two accepted logs with the same last digest are the same log. */
  lemma SameDigestSameLog(a: seq<Record>, b: seq<Record>, own: string, own': string)
    requires Accepts(a, own) && Accepts(b, own') && LastDigest(a) == LastDigest(b)
    ensures a == b && own == own'
  {
    DigestDeterminesChain(a, b);
    assert Admissible(a[0].body, own) && Admissible(b[0].body, own');
  }
}
