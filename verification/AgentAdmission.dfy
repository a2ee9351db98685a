/**
 The transactional repository and the admission service over it.  Each method
 is one transaction and performs one step of the protocol.
 */
module AgentAdmission {
  import opened Options
  import opened ProviderCapacity
  import opened CapacityProtocol
  import opened Admission

  class ExecutionRecords {
    var circuits: map<CircuitKey, Circuit>
    var running: map<string, Attempt>

    constructor ()
      ensures circuits == map[] && running == map[]
    {
      circuits, running := map[], map[];
    }

    method CountInflightAttempts(key: CircuitKey) returns (n: nat)
      ensures n == Count(running, key)
    {
      n := 0;
      var rest := running.Keys;
      ghost var seen: set<string> := {};
      while rest != {}
        invariant rest <= running.Keys && seen <= running.Keys
        invariant seen == set id | id in running && id !in rest && Covers(key, running[id].spec)
        invariant n == |seen|
        decreases rest
      {
        var id :| id in rest;
        rest := rest - {id};
        if Covers(key, running[id].spec) {
          n := n + 1;
          seen := seen + {id};
        }
      }
      assert seen == set id | id in running && Covers(key, running[id].spec);
    }

    /** Test and write in one step: the one caller that wins gets true. */
    method TryClaimCircuitProbe(key: CircuitKey, holder: string, now: real, staleBefore: real)
      returns (won: bool)
      modifies this`circuits
      ensures won <==> key in old(circuits) && Claimable(old(circuits)[key], staleBefore)
      ensures won ==> circuits == Claim(old(circuits), key, holder, now)
      ensures !won ==> circuits == old(circuits)
      // A second claim at the same moment loses.
      ensures won && staleBefore <= now ==> !Claimable(circuits[key], staleBefore)
    {
      won := key in circuits && Claimable(circuits[key], staleBefore);
      if won {
        circuits := circuits[key := circuits[key].(probe := Some(Probe(holder, now)))];
      }
    }

    method ReleaseCircuitProbe(key: CircuitKey)
      modifies this`circuits
      ensures circuits == Release(old(circuits), key)
      ensures key in circuits ==> forall staleBefore :: Claimable(circuits[key], staleBefore)
    {
      if key in circuits {
        circuits := circuits[key := circuits[key].(probe := None)];
      }
    }

    method UpsertRuntimeCircuit(key: CircuitKey, circuit: Circuit)
      modifies this`circuits
      ensures circuits == old(circuits)[key := circuit]
    {
      circuits := circuits[key := circuit];
    }

    method ClearRuntimeCircuit(key: CircuitKey)
      modifies this`circuits
      ensures circuits == old(circuits) - {key}
    {
      circuits := circuits - {key};
    }

    method AddAttempt(id: string, attempt: Attempt)
      requires id !in running
      modifies this`running
      ensures running == old(running)[id := attempt]
    {
      running := running[id := attempt];
    }

    method FinalizeAttempt(id: string)
      modifies this`running
      ensures running == old(running) - {id}
    {
      running := running - {id};
    }
  }

  datatype Signal = Started | NotReady | Paused

  /** The row consulted: the account's, else the model's. */
  function Gating(circuits: map<CircuitKey, Circuit>, spec: Spec): Option<Circuit> {
    var wide := CircuitKey(spec.runtime, spec.provider, None);
    var own := CircuitKey(spec.runtime, spec.provider, Some(spec.model));
    if wide in circuits then Some(circuits[wide]) else if own in circuits then Some(circuits[own]) else None
  }

  lemma GatingIs(circuits: map<CircuitKey, Circuit>, spec: Spec)
    ensures var gate := Gate(circuits, spec);
      Gating(circuits, spec) == if gate.Some? then Some(circuits[gate.value]) else None
  {
  }

  lemma CapacityRows(p: Params, s: Pool, id: string, limit: Option<LimitScope>, retryAt: real)
    requires Enabled(p, s, FailCapacity(id, limit, retryAt))
    ensures var t, spec := Apply(p, s, FailCapacity(id, limit, retryAt)), s.running[id].spec;
      var account := limit == Some(Quota) || limit == Some(DailyQuota) || OneEndpoint(p, spec);
      var key := CircuitKey(spec.runtime, spec.provider, if account then None else Some(spec.model));
      && key == FailureKey(p, s.running[id].spec, limit)
      && t.circuits.Keys == s.circuits.Keys + {key}
      && t.circuits[key].retryAt == retryAt && t.circuits[key].probe.None?
      && (forall k <- s.circuits :: k != key ==> t.circuits[k] == s.circuits[k])
      && t.blocks == s.blocks + if t.circuits[key].latched then multiset{key} else multiset{}
  {
  }

  lemma ReleasedRows(p: Params, s: Pool, id: string)
    requires Enabled(p, s, FailOther(id))
    ensures var t, spec := Apply(p, s, FailOther(id)), s.running[id].spec;
      && t.circuits.Keys == s.circuits.Keys && t.blocks == s.blocks
      && (forall k <- t.circuits ::
            t.circuits[k] ==
              if k.runtime == spec.runtime && k.provider == spec.provider && (k.model.None? || k.model == Some(spec.model))
              then s.circuits[k].(probe := None) else s.circuits[k])
  {
  }

  class Service {
    const records: ExecutionRecords
    const params: Params
    var blocks: multiset<CircuitKey>  // the circuit each unresolved block's evidence names

    constructor (records: ExecutionRecords, params: Params)
      ensures this.records == records && this.params == params && blocks == multiset{}
    {
      this.records, this.params, blocks := records, params, multiset{};
    }

    ghost function State(now: real): Pool
      reads this, records
    {
      Pool(now, records.circuits, records.running, blocks)
    }

    /** Admission first, then the circuit gate, then the attempt row, all in one transaction. */
    method StartAttempt(id: string, spec: Spec, now: real) returns (signal: Signal)
      requires id !in records.running
      modifies records, this`blocks
      ensures signal.Started? <==> old(Admits(params, State(now), spec))
      ensures signal.Started? ==>
        Enabled(params, old(State(now)), Start(id, spec)) &&
        State(now) == Apply(params, old(State(now)), Start(id, spec))
      ensures signal.NotReady? ==> State(now) == old(State(now))
      ensures signal.NotReady? <==>
        || old(InPool(params, records.running, spec)) >= Cap(params, spec)
        || (var row := Gating(old(records.circuits), spec);
            row.Some? && !row.value.latched
            && !(row.value.retryAt <= now && Claimable(row.value, now - params.policy.probeStaleAfter)))
      ensures signal.Paused? <==> Enabled(params, old(State(now)), MeetLatched(spec))
      ensures signal.Paused? ==> State(now) == Apply(params, old(State(now)), MeetLatched(spec))
    {
      PoolIsRows(params, records.running, spec);
      GatingIs(records.circuits, spec);
      var inflight := records.CountInflightAttempts(PoolKey(params, spec));
      if inflight >= Cap(params, spec) {
        return NotReady;
      }
      var gate := Gate(records.circuits, spec);
      if gate.Some? {
        var circuit := records.circuits[gate.value];
        if circuit.latched {
          blocks := blocks + multiset{gate.value};
          return Paused;
        }
        if now < circuit.retryAt {
          return NotReady;
        }
        var won := records.TryClaimCircuitProbe(
          gate.value, id, now, now - params.policy.probeStaleAfter);
        if !won {
          return NotReady;
        }
      }
      records.AddAttempt(id, Attempt(spec, now, gate, true));
      signal := Started;
    }

    /** A capacity failure rewrites its circuit; a concurrency refusal or any other failure only releases probes. */
    method RecordFailure(id: string, capacity: bool, limit: Option<LimitScope>, retryAt: real, now: real)
      returns (latched: bool)
      requires Live(State(now), id)
      requires capacity && limit != Some(RequestConcurrency) ==> now + params.minWait <= retryAt
      modifies records, this`blocks
      ensures capacity && limit != Some(RequestConcurrency) ==>
        && State(now) == Apply(params, old(State(now)), FailCapacity(id, limit, retryAt))
        && latched == records.circuits[FailureKey(params, old(records.running)[id].spec, limit)].latched
      ensures !capacity || limit == Some(RequestConcurrency) ==>
        !latched && State(now) == Apply(params, old(State(now)), FailOther(id))
      // Which row a capacity failure writes, and what it leaves alone.
      ensures capacity && limit != Some(RequestConcurrency) ==>
        var spec := old(records.running)[id].spec;
        var account := limit == Some(Quota) || limit == Some(DailyQuota) || OneEndpoint(params, spec);
        var key := CircuitKey(spec.runtime, spec.provider, if account then None else Some(spec.model));
        && records.circuits.Keys == old(records.circuits).Keys + {key}
        && records.circuits[key].retryAt == retryAt && records.circuits[key].probe.None?
        && (forall k <- old(records.circuits) :: k != key ==> records.circuits[k] == old(records.circuits)[k])
        && blocks == old(blocks) + if latched then multiset{key} else multiset{}
      // Any other failure frees the probes of both circuits, whoever holds them.
      ensures !capacity || limit == Some(RequestConcurrency) ==>
        var spec := old(records.running)[id].spec;
        && records.circuits.Keys == old(records.circuits).Keys && blocks == old(blocks)
        && (forall k <- records.circuits ::
              records.circuits[k] ==
                if k.runtime == spec.runtime && k.provider == spec.provider && (k.model.None? || k.model == Some(spec.model))
                then old(records.circuits)[k].(probe := None) else old(records.circuits)[k])
      ensures records.running == old(records.running) - {id}
    {
      hide OneEndpoint, CircuitModelId;
      ghost var before := State(now);
      var spec := records.running[id].spec;
      if capacity && limit != Some(RequestConcurrency) {
        var key := FailureKey(params, spec, limit);
        var row := records.circuits;
        var existing := if key in row then Some(row[key]) else None;
        var openedAt := OutageStart(params.policy,
          if existing.Some? then Some(existing.value.openedAt) else None,
          if existing.Some? then Some(existing.value.retryAt) else None,
          now);
        latched := OutageExceeded(params.policy, openedAt, now, limit);
        records.UpsertRuntimeCircuit(key, Circuit(openedAt, retryAt, latched, None, now));
        if latched {
          blocks := blocks + multiset{key};
        }
        CapacityRows(params, before, id, limit, retryAt);
      } else {
        latched := false;
        records.ReleaseCircuitProbe(ModelKey(spec));
        records.ReleaseCircuitProbe(WideKey(spec));
        ReleasedRows(params, before, id);
      }
      records.FinalizeAttempt(id);
    }

    /** A success proves the account has budget and the model's pool has room: both circuits go. */
    method Finish(id: string, now: real)
      requires Live(State(now), id)
      modifies records, this`blocks
      ensures State(now) == Apply(params, old(State(now)), Succeed(id))
      ensures var spec := old(records.running)[id].spec;
        var mine := {CircuitKey(spec.runtime, spec.provider, Some(spec.model)), CircuitKey(spec.runtime, spec.provider, None)};
        && (forall k <- records.circuits :: k !in mine && k in old(records.circuits))
        && (forall k <- old(records.circuits) :: k !in mine ==>
              k in records.circuits && records.circuits[k] == old(records.circuits)[k])
      ensures records.running == old(records.running) - {id} && blocks == old(blocks)
    {
      var spec := records.running[id].spec;
      records.ClearRuntimeCircuit(ModelKey(spec));
      records.ClearRuntimeCircuit(WideKey(spec));
      assert records.circuits == old(records.circuits) - {ModelKey(spec), WideKey(spec)};
      records.FinalizeAttempt(id);
    }

    /** `wait_and_retry`: the row the resolved block names is deleted, in whatever state it is by now. */
    method RetryTask(key: CircuitKey, now: real)
      requires key in blocks
      modifies records, this`blocks
      ensures State(now) == Apply(params, old(State(now)), OperatorClear(key))
      ensures records.circuits == old(records.circuits) - {key} && records.running == old(records.running)
      ensures blocks == old(blocks) - multiset{key}
    {
      records.ClearRuntimeCircuit(key);
      blocks := blocks - multiset{key};
    }
  }
}
