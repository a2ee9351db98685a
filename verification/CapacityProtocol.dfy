/**
 Admission to a provider as a step-by-step protocol: circuits with a half-open
 probe, running attempts, and the clock.  Every step is one transaction.
 */
module CapacityProtocol {
  import opened Options
  import opened ProviderCapacity

  // A routed agent: which pool its attempts go to.
  datatype Spec = Spec(runtime: string, provider: string, model: string)

  datatype Probe = Probe(holder: string, startedAt: real)

  // `writtenAt` is when the row was last upserted.
  datatype Circuit =
    Circuit(openedAt: real, retryAt: real, latched: bool, probe: Option<Probe>, writtenAt: real)

  // A row with status RUNNING.  `probe` is the circuit whose probe it claimed
  // to start; `alive` turns false when its process dies without finalizing.
  datatype Attempt = Attempt(spec: Spec, startedAt: real, probe: Option<CircuitKey>, alive: bool)

  // `models` holds the catalog's model rows, each with its optional cap.
  datatype ProviderRow =
    ProviderRow(maxInflight: Option<int>, scope: CapacityScope, models: map<string, Option<int>>)

  // Attempts end within `timeout` of their start; every recorded wait is at least `minWait`.
  datatype Params =
    Params(policy: Policy, providers: map<string, ProviderRow>, timeout: real, minWait: real)

  // `blocks` holds the circuit each unresolved provider-capacity block names.
  datatype Pool = Pool(
    now: real, circuits: map<CircuitKey, Circuit>, running: map<string, Attempt>, blocks: multiset<CircuitKey>)

  datatype Step =
    | Tick(to: real)
    | Start(id: string, spec: Spec)
    | MeetLatched(spec: Spec)
    | Succeed(id: string)
    | FailCapacity(id: string, limit: Option<LimitScope>, retryAt: real)
    | FailOther(id: string)
    | Crash(id: string)
    | Reclaim(id: string)
    | OperatorClear(key: CircuitKey)

  // ------------------------------------------------------- caps and pools

  function ScopeOf(p: Params, spec: Spec): CapacityScope {
    if spec.provider in p.providers then p.providers[spec.provider].scope else PerModel
  }

  /** Model row, else provider row, else the global default; with no provider row the default is used as it is. */
  function Cap(p: Params, spec: Spec): int {
    if spec.provider !in p.providers then p.policy.maxInflight
    else
      var row := p.providers[spec.provider];
      ResolveMaxInflight(
        if spec.model in row.models then row.models[spec.model] else None,
        row.maxInflight, p.policy.maxInflight)
  }

  function WideKey(spec: Spec): CircuitKey {
    CircuitKey(spec.runtime, spec.provider, None)
  }

  function ModelKey(spec: Spec): CircuitKey {
    CircuitKey(spec.runtime, spec.provider, Some(spec.model))
  }

  /** The attempts one admission decision counts. */
  function PoolKey(p: Params, spec: Spec): CircuitKey {
    if ScopeOf(p, spec).EndpointWide? then WideKey(spec) else ModelKey(spec)
  }

  predicate Covers(key: CircuitKey, spec: Spec) {
    && key.runtime == spec.runtime && key.provider == spec.provider
    && (key.model.None? || key.model.value == spec.model)
  }

  /** `count_inflight_attempts`: across all plans, over the running rows. */
  function Count(running: map<string, Attempt>, key: CircuitKey): nat {
    |set id | id in running && Covers(key, running[id].spec)|
  }

  lemma {:induction false} SubsetSize(a: set<string>, b: set<string>)
    requires a <= b
    ensures |a| <= |b|
  {
    if a != {} {
      var x :| x in a;
      SubsetSize(a - {x}, b - {x});
    }
  }

  // ------------------------------------------------------------- circuits

  predicate Claimable(c: Circuit, staleBefore: real) {
    c.probe.None? || c.probe.value.startedAt < staleBefore
  }

  function Claim(circuits: map<CircuitKey, Circuit>, key: CircuitKey, holder: string, now: real)
      : map<CircuitKey, Circuit>
    requires key in circuits
  {
    circuits[key := circuits[key].(probe := Some(Probe(holder, now)))]
  }

  /** Names no holder: whoever holds the probe loses it. */
  function Release(circuits: map<CircuitKey, Circuit>, key: CircuitKey): map<CircuitKey, Circuit> {
    if key in circuits then circuits[key := circuits[key].(probe := None)] else circuits
  }

  /** The provider-wide circuit is consulted first. */
  function Gate(circuits: map<CircuitKey, Circuit>, spec: Spec): Option<CircuitKey> {
    if WideKey(spec) in circuits then Some(WideKey(spec))
    else if ModelKey(spec) in circuits then Some(ModelKey(spec))
    else None
  }

  predicate Passable(p: Params, c: Circuit, now: real) {
    !c.latched && c.retryAt <= now && Claimable(c, now - p.policy.probeStaleAfter)
  }

  predicate Admits(p: Params, s: Pool, spec: Spec) {
    && Count(s.running, PoolKey(p, spec)) < Cap(p, spec)
    && (var gate := Gate(s.circuits, spec); gate.Some? ==> Passable(p, s.circuits[gate.value], s.now))
  }

  /** The row a capacity failure writes; rewriting it drops any probe. */
  function Upserted(p: Params, s: Pool, key: CircuitKey, limit: Option<LimitScope>, retryAt: real): Circuit {
    var existing :=
      if key in s.circuits
      then Some(Window(s.circuits[key].openedAt, s.circuits[key].retryAt, s.circuits[key].latched))
      else None;
    var w := Record(p.policy, existing, Failed(s.now, retryAt, limit));
    Circuit(w.openedAt, w.retryAt, w.escalated, None, s.now)
  }

  function FailureKey(p: Params, spec: Spec, limit: Option<LimitScope>): CircuitKey {
    CircuitKey(spec.runtime, spec.provider, CircuitModelId(spec.model, limit, ScopeOf(p, spec)))
  }

  // ---------------------------------------------------------------- steps

  predicate Live(s: Pool, id: string) {
    id in s.running && s.running[id].alive
  }

  predicate Enabled(p: Params, s: Pool, step: Step) {
    match step
    case Tick(to) =>
      s.now <= to && forall id <- s.running :: Live(s, id) ==> to <= s.running[id].startedAt + p.timeout
    case Start(id, spec) => id !in s.running && Admits(p, s, spec)
    case MeetLatched(spec) =>
      && Count(s.running, PoolKey(p, spec)) < Cap(p, spec)
      && (var gate := Gate(s.circuits, spec); gate.Some? && s.circuits[gate.value].latched)
    case Succeed(id) => Live(s, id)
    case FailCapacity(id, limit, retryAt) =>
      Live(s, id) && limit != Some(RequestConcurrency) && s.now + p.minWait <= retryAt
    case FailOther(id) => Live(s, id)
    case Crash(id) => Live(s, id)
    case Reclaim(id) => id in s.running && !s.running[id].alive
    // A block names the row; the row itself is not looked at again.
    case OperatorClear(key) => key in s.blocks
  }

  function Apply(p: Params, s: Pool, step: Step): Pool
    requires Enabled(p, s, step)
  {
    match step
    case Tick(to) => s.(now := to)
    case Start(id, spec) =>
      var gate := Gate(s.circuits, spec);
      s.(circuits := if gate.Some? then Claim(s.circuits, gate.value, id, s.now) else s.circuits,
         running := s.running[id := Attempt(spec, s.now, gate, true)])
    case MeetLatched(spec) => s.(blocks := s.blocks + multiset{Gate(s.circuits, spec).value})
    case Succeed(id) =>
      var spec := s.running[id].spec;
      s.(circuits := s.circuits - {ModelKey(spec), WideKey(spec)}, running := s.running - {id})
    case FailCapacity(id, limit, retryAt) =>
      var key := FailureKey(p, s.running[id].spec, limit);
      var row := Upserted(p, s, key, limit, retryAt);
      s.(circuits := s.circuits[key := row], running := s.running - {id},
         blocks := if row.latched then s.blocks + multiset{key} else s.blocks)
    case FailOther(id) =>
      var spec := s.running[id].spec;
      s.(circuits := Release(Release(s.circuits, ModelKey(spec)), WideKey(spec)), running := s.running - {id})
    case Crash(id) => s.(running := s.running[id := s.running[id].(alive := false)])
    case Reclaim(id) => s.(running := s.running - {id})
    case OperatorClear(key) => s.(circuits := s.circuits - {key}, blocks := s.blocks - multiset{key})
  }

  const Idle: Pool := Pool(0.0, map[], map[], multiset{})

  predicate Runs(p: Params, s: Pool, steps: seq<Step>, t: Pool)
    decreases |steps|
  {
    if steps == [] then t == s
    else Enabled(p, s, steps[0]) && Runs(p, Apply(p, s, steps[0]), steps[1..], t)
  }

  ghost predicate Reachable(p: Params, t: Pool) {
    exists steps :: Runs(p, Idle, steps, t)
  }

  lemma {:induction false} RunsExtend(p: Params, s: Pool, steps: seq<Step>, t: Pool, step: Step)
    requires Runs(p, s, steps, t) && Enabled(p, t, step)
    ensures Runs(p, s, steps + [step], Apply(p, t, step))
    decreases |steps|
  {
    hide Enabled, Apply;
    if steps == [] {
      assert (steps + [step])[1..] == [];
    } else {
      RunsExtend(p, Apply(p, s, steps[0]), steps[1..], t, step);
      assert (steps + [step])[1..] == steps[1..] + [step];
    }
  }

  lemma ReachNext(p: Params, s: Pool, step: Step)
    requires Reachable(p, s) && Enabled(p, s, step)
    ensures Reachable(p, Apply(p, s, step))
  {
    var steps :| Runs(p, Idle, steps, s);
    RunsExtend(p, Idle, steps, s, step);
  }

  // --------------------------------------------------- operator discipline

  /** Attempt `id` is live on the probe of circuit `k`, and the row says so. */
  predicate RecordedHolder(s: Pool, k: CircuitKey, id: string) {
    && Live(s, id) && s.running[id].probe == Some(k)
    && k in s.circuits && s.circuits[k].probe == Some(Probe(id, s.running[id].startedAt))
  }

  /** The holder the row names, if it names one, is not live on this probe. */
  predicate NoLiveHolder(s: Pool, key: CircuitKey) {
    key in s.circuits && s.circuits[key].probe.Some? ==> !RecordedHolder(s, key, s.circuits[key].probe.value.holder)
  }

  /** An operator clears only rows that no live attempt is probing; a latched row is always such a row. */
  predicate Careful(s: Pool, step: Step) {
    step.OperatorClear? ==> NoLiveHolder(s, step.key)
  }

  predicate CarefulRuns(p: Params, s: Pool, steps: seq<Step>, t: Pool)
    decreases |steps|
  {
    if steps == [] then t == s
    else
      && Enabled(p, s, steps[0]) && Careful(s, steps[0])
      && CarefulRuns(p, Apply(p, s, steps[0]), steps[1..], t)
  }

  ghost predicate CarefullyReachable(p: Params, t: Pool) {
    exists steps :: CarefulRuns(p, Idle, steps, t)
  }

  lemma {:induction false} CarefulRunsExtend(p: Params, s: Pool, steps: seq<Step>, t: Pool, step: Step)
    requires CarefulRuns(p, s, steps, t) && Enabled(p, t, step) && Careful(t, step)
    ensures CarefulRuns(p, s, steps + [step], Apply(p, t, step))
    decreases |steps|
  {
    hide Enabled, Apply, Careful;
    if steps == [] {
      assert (steps + [step])[1..] == [];
    } else {
      CarefulRunsExtend(p, Apply(p, s, steps[0]), steps[1..], t, step);
      assert (steps + [step])[1..] == steps[1..] + [step];
    }
  }

  lemma {:induction false} CarefulRunsAreRuns(p: Params, s: Pool, steps: seq<Step>, t: Pool)
    requires CarefulRuns(p, s, steps, t)
    ensures Runs(p, s, steps, t)
    decreases |steps|
  {
    hide Enabled, Apply, Careful;
    if steps != [] {
      CarefulRunsAreRuns(p, Apply(p, s, steps[0]), steps[1..], t);
    }
  }

  lemma CareNext(p: Params, s: Pool, step: Step)
    requires CarefullyReachable(p, s) && Enabled(p, s, step) && Careful(s, step)
    ensures CarefullyReachable(p, Apply(p, s, step))
  {
    var steps :| CarefulRuns(p, Idle, steps, s);
    CarefulRunsExtend(p, Idle, steps, s, step);
  }

  lemma CareIdle(p: Params)
    ensures CarefullyReachable(p, Idle)
  {
    assert CarefulRuns(p, Idle, [], Idle);
  }

  lemma ReachIdle(p: Params)
    ensures Reachable(p, Idle)
  {
    assert Runs(p, Idle, [], Idle);
  }
}
