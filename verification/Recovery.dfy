/** Nothing waits for ever: what becomes of a circuit whose prober is gone, and of a spec that was refused. */
module Recovery {
  import opened Options
  import opened ProviderCapacity
  import opened CapacityProtocol
  import opened Admission

  // ------------------------------------------------------- a row left alone

  /** The step claims the row's probe or writes the row anew. */
  predicate Rewrites(p: Params, s: Pool, step: Step, k: CircuitKey)
    requires Enabled(p, s, step)
  {
    match step
    case Start(_, spec) => Gate(s.circuits, spec) == Some(k)
    case FailCapacity(id, limit, _) => FailureKey(p, s.running[id].spec, limit) == k
    case _ => false
  }

  /** A run from `s` to `t` in which nobody claims or rewrites the row; it may be released or cleared. */
  predicate LeavesAlone(p: Params, s: Pool, steps: seq<Step>, t: Pool, k: CircuitKey)
    decreases |steps|
  {
    if steps == [] then t == s
    else
      && Enabled(p, s, steps[0]) && !Rewrites(p, s, steps[0], k)
      && LeavesAlone(p, Apply(p, s, steps[0]), steps[1..], t, k)
  }

  predicate KeptOrReleased(c: Circuit, later: Circuit) {
    later == c || later == c.(probe := None)
  }

  lemma {:induction false} AloneMeansKept(p: Params, s: Pool, steps: seq<Step>, t: Pool, k: CircuitKey, c: Circuit)
    requires LeavesAlone(p, s, steps, t, k)
    requires k in s.circuits ==> KeptOrReleased(c, s.circuits[k])
    ensures k in t.circuits ==> KeptOrReleased(c, t.circuits[k])
    decreases |steps|
  {
    if steps != [] {
      StepMeansKept(p, s, steps[0], k, c);
      AloneMeansKept(p, Apply(p, s, steps[0]), steps[1..], t, k, c);
    }
  }

  lemma StepMeansKept(p: Params, s: Pool, step: Step, k: CircuitKey, c: Circuit)
    requires Enabled(p, s, step) && !Rewrites(p, s, step, k)
    requires k in s.circuits ==> KeptOrReleased(c, s.circuits[k])
    ensures var t := Apply(p, s, step); k in t.circuits ==> KeptOrReleased(c, t.circuits[k])
  {
  }

  /** The clock has passed the row's retry time and any probe recorded in it is stale. */
  predicate Due(p: Params, c: Circuit, now: real) {
    c.retryAt <= now && (c.probe.Some? ==> c.probe.value.startedAt + p.policy.probeStaleAfter < now)
  }

  /**
   However its prober ended, and whatever else is live: after any run that left
   the row alone and outlasted the stale bound, the row is passable or gone.
   */
  lemma StaleProbeIsClaimable(p: Params, s: Pool, steps: seq<Step>, t: Pool, k: CircuitKey)
    requires k in s.circuits && !s.circuits[k].latched
    requires LeavesAlone(p, s, steps, t, k) && Due(p, s.circuits[k], t.now)
    ensures k in t.circuits ==> Passable(p, t.circuits[k], t.now)
  {
    AloneMeansKept(p, s, steps, t, k, s.circuits[k]);
  }

  /** Whatever else is live, once the gating row is due the next runner within the cap gets in. */
  lemma CrashedProbeRecovers(p: Params, s: Pool, id: string, spec: Spec, to: real)
    requires id !in s.running && Count(s.running, PoolKey(p, spec)) < Cap(p, spec)
    requires var gate := Gate(s.circuits, spec);
      gate.Some? && !s.circuits[gate.value].latched && Due(p, s.circuits[gate.value], to)
    requires Enabled(p, s, Tick(to))
    ensures Enabled(p, Apply(p, s, Tick(to)), Start(id, spec))
  {
  }

  // --------------------------------------------------- a success reopens

  /**
   Right after a success no circuit gates its spec, whatever was open or latched:
   any spec of the account with no row of its own model and room in its pool is
   admitted at once.
   */
  lemma SuccessReopens(p: Params, s: Pool, id: string, sibling: Spec)
    requires Live(s, id)
    requires var spec := s.running[id].spec; sibling.runtime == spec.runtime && sibling.provider == spec.provider
    requires sibling == s.running[id].spec
      || CircuitKey(sibling.runtime, sibling.provider, Some(sibling.model)) !in s.circuits
    ensures var t := Apply(p, s, Succeed(id));
      Admits(p, t, sibling) <==> InPool(p, s.running - {id}, sibling) < Cap(p, sibling)
  {
    PoolIsRows(p, s.running - {id}, sibling);
  }

  // ------------------------------------------------------------- no dead end

  /** `steps` uses no operator and no crash. */
  predicate Unaided(steps: seq<Step>) {
    forall step <- steps :: !step.OperatorClear? && !step.Crash?
  }

  predicate SameGates(s: Pool, t: Pool) {
    && t.circuits.Keys == s.circuits.Keys
    && forall k <- t.circuits :: KeptOrReleased(s.circuits[k], t.circuits[k])
  }

  /** Every running attempt can end without touching a circuit beyond releasing its probe. */
  lemma {:induction false} AllEnd(p: Params, s: Pool) returns (steps: seq<Step>, t: Pool)
    ensures Runs(p, s, steps, t) && Unaided(steps)
    ensures t.running == map[] && t.now == s.now && SameGates(s, t)
    decreases |s.running|
  {
    if s.running == map[] {
      steps, t := [], s;
    } else {
      var id :| id in s.running;
      var step := if s.running[id].alive then FailOther(id) else Reclaim(id);
      var next := Apply(p, s, step);
      assert next.running == s.running - {id};
      FewerRunning(s.running, id);
      var more;
      more, t := AllEnd(p, next);
      steps := [step] + more;
      assert steps[1..] == more;
    }
  }

  lemma FewerRunning(running: map<string, Attempt>, id: string)
    requires id in running
    ensures |running - {id}| < |running|
  {
    assert (running - {id}).Keys == running.Keys - {id};
  }

  lemma LastStep(p: Params, s: Pool, steps: seq<Step>, t: Pool, step: Step)
    requires Runs(p, s, steps, t) && Enabled(p, t, step) && Unaided(steps) && Unaided([step])
    ensures Runs(p, s, steps + [step], Apply(p, t, step)) && Unaided(steps + [step])
  {
    RunsExtend(p, s, steps, t, step);
    assert forall x :: x in steps + [step] <==> x in steps || x == step;
    assert step in [step];
  }

  /** The first moment at which the row is due, from `now` on. */
  function DueAt(p: Params, c: Circuit, now: real): real {
    var waited := if now < c.retryAt then c.retryAt else now;
    if c.probe.Some? && waited <= c.probe.value.startedAt + p.policy.probeStaleAfter
    then c.probe.value.startedAt + p.policy.probeStaleAfter + 1.0
    else waited
  }

  lemma IdleCount(running: map<string, Attempt>, key: CircuitKey)
    requires running == map[]
    ensures Count(running, key) == 0
  {
    assert (set id | id in running && Covers(key, running[id].spec)) == {};
  }

  /**
   No spec is ever stuck: from every state of every run whose gating circuit, if
   any, is not latched, some run without operator or crash admits it - for every
   configuration, catalog and set of live, crashed and probing attempts.
   */
  lemma EverySpecIsAdmittedAgain(p: Params, config: CapacityConfig, s: Pool, spec: Spec)
      returns (steps: seq<Step>, t: Pool)
    requires p.policy == BuildPolicy(config)
    requires var gate := Gate(s.circuits, spec); gate.Some? ==> !s.circuits[gate.value].latched
    ensures Runs(p, s, steps, t) && Unaided(steps) && Admits(p, t, spec)
  {
    steps, t := AllEnd(p, s);
    IdleCount(t.running, PoolKey(p, spec));
    var gate := Gate(t.circuits, spec);
    assert gate == Gate(s.circuits, spec);
    if gate.Some? {
      var to := DueAt(p, t.circuits[gate.value], t.now);
      LastStep(p, s, steps, t, Tick(to));
      steps, t := steps + [Tick(to)], Apply(p, t, Tick(to));
    }
    IdlePoolAdmits(p, config, t, spec);
  }
}
