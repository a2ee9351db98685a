/**
 Single flight of the half-open probe: exactly which timing bounds make it hold
 in every run.
 */
module ProbeSafety {
  import opened Options
  import opened ProviderCapacity
  import opened CapacityProtocol

  /** No two live attempts hold the same circuit's probe. */
  ghost predicate SingleFlight(s: Pool) {
    forall a, b :: Live(s, a) && Live(s, b) && s.running[a].probe.Some? && s.running[a].probe == s.running[b].probe
      ==> a == b
  }

  /** Both specs go to one account: same runtime, same provider. */
  predicate SameAccount(a: Spec, b: Spec) {
    a.runtime == b.runtime && a.provider == b.provider
  }

  /** The same for the circuits of one account only. */
  ghost predicate AccountFlight(s: Pool, spec: Spec) {
    forall a, b ::
      && Live(s, a) && Live(s, b) && SameAccount(s.running[a].spec, spec) && SameAccount(s.running[b].spec, spec)
      && s.running[a].probe.Some? && s.running[a].probe == s.running[b].probe
      ==> a == b
  }

  /** Attempt `other` is live and recorded as holder of a probe that the end of attempt `id` would take away. */
  ghost predicate StealsProbe(s: Pool, id: string, other: string) {
    && id != other && Live(s, id) && Live(s, other)
    && (RecordedHolder(s, ModelKey(s.running[id].spec), other) || RecordedHolder(s, WideKey(s.running[id].spec), other))
  }

  predicate Timely(p: Params) {
    p.timeout <= p.policy.probeStaleAfter && p.timeout < p.minWait
  }

  // ------------------------------------------------------------ invariant

  ghost predicate Punctual(p: Params, s: Pool) {
    forall id :: Live(s, id) ==> s.running[id].startedAt <= s.now <= s.running[id].startedAt + p.timeout
  }

  ghost predicate RowsSane(p: Params, s: Pool) {
    forall k <- s.circuits :: var c := s.circuits[k];
      c.writtenAt <= s.now && c.writtenAt + p.minWait <= c.retryAt && (c.latched ==> c.probe.None?)
  }

  /** A live prober is the recorded holder of the circuit it probes. */
  ghost predicate HoldersRecorded(s: Pool) {
    forall id :: Live(s, id) && s.running[id].probe.Some? ==>
      var k := s.running[id].probe.value;
      Covers(k, s.running[id].spec) && RecordedHolder(s, k, id)
  }

  ghost predicate Accounted(s: Pool, id: string, k: CircuitKey)
    requires Live(s, id) && k in s.circuits
  {
    var a := s.running[id];
    a.startedAt <= s.circuits[k].writtenAt || a.probe == Some(k) || a.probe == Some(WideKey(a.spec))
  }

  /** Whoever started after a circuit row was written did so on a probe. */
  ghost predicate NoneUngated(s: Pool) {
    forall id, k :: Live(s, id) && k in s.circuits && Covers(k, s.running[id].spec) ==> Accounted(s, id, k)
  }

  /** A live prober has its circuit's pool to itself. */
  ghost predicate Alone(s: Pool) {
    forall id, other :: Live(s, id) && Live(s, other) && id != other && s.running[id].probe.Some? ==>
      !Covers(s.running[id].probe.value, s.running[other].spec)
  }

  ghost predicate Inv(p: Params, s: Pool) {
    Punctual(p, s) && RowsSane(p, s) && HoldersRecorded(s) && NoneUngated(s) && Alone(s)
  }

  // ------------------------------------------------------------ the steps

  /** Nobody the circuit covers is still live when its probe can be claimed. */
  lemma ClaimFindsNobody(p: Params, s: Pool, k: CircuitKey, id: string)
    requires Timely(p) && Inv(p, s) && k in s.circuits && Passable(p, s.circuits[k], s.now)
    requires k.model.Some? ==> k.(model := None) !in s.circuits
    requires Live(s, id)
    ensures !Covers(k, s.running[id].spec)
  {
    assert Covers(k, s.running[id].spec) ==> Accounted(s, id, k);
  }

  lemma OnlyTwoCover(k: CircuitKey, spec: Spec)
    ensures Covers(k, spec) <==> k == WideKey(spec) || k == ModelKey(spec)
  {
  }

  /** An admitted attempt joins a pool in which its gate covers no live attempt and no live probe covers it. */
  lemma NobodyElse(p: Params, s: Pool, id: string, spec: Spec, x: string)
    requires Timely(p) && Inv(p, s) && Enabled(p, s, Start(id, spec)) && Live(s, x)
    ensures Gate(s.circuits, spec).Some? ==> !Covers(Gate(s.circuits, spec).value, s.running[x].spec)
    ensures s.running[x].probe.Some? ==> !Covers(s.running[x].probe.value, spec)
  {
    var gate := Gate(s.circuits, spec);
    if gate.Some? {
      ClaimFindsNobody(p, s, gate.value, x);
    }
    if s.running[x].probe.Some? {
      OnlyTwoCover(s.running[x].probe.value, spec);
    }
  }

  lemma StartRows(p: Params, s: Pool, id: string, spec: Spec)
    requires Timely(p) && 0.0 <= p.timeout && Inv(p, s) && Enabled(p, s, Start(id, spec))
    ensures var t := Apply(p, s, Start(id, spec)); Punctual(p, t) && RowsSane(p, t) && NoneUngated(t)
  {
    var t := Apply(p, s, Start(id, spec));
    forall x, k | Live(t, x) && k in t.circuits && Covers(k, t.running[x].spec)
      ensures Accounted(t, x, k)
    {
      OnlyTwoCover(k, spec);
      if x != id {
        assert Accounted(s, x, k);
      }
    }
  }

  lemma StartProbes(p: Params, s: Pool, id: string, spec: Spec)
    requires Timely(p) && Inv(p, s) && Enabled(p, s, Start(id, spec))
    ensures var t := Apply(p, s, Start(id, spec)); HoldersRecorded(t) && Alone(t)
  {
    var t := Apply(p, s, Start(id, spec));
    forall x | Live(t, x) && x != id
      ensures Live(s, x) && t.running[x] == s.running[x]
      ensures t.running[x].probe.Some? ==> !Covers(t.running[x].probe.value, spec)
      ensures t.running[id].probe.Some? ==> !Covers(t.running[id].probe.value, t.running[x].spec)
    {
      NobodyElse(p, s, id, spec, x);
    }
  }

  /** The end of an attempt touches only circuits that cover it, and no other prober holds one of those. */
  lemma OthersUntouched(s: Pool, id: string, other: string)
    requires HoldersRecorded(s) && Alone(s)
    ensures !StealsProbe(s, id, other)
  {
    if Live(s, id) {
      OnlyTwoCover(WideKey(s.running[id].spec), s.running[id].spec);
    }
  }

  /** A circuit after an attempt it covers ended: kept, released, or rewritten just now. */
  predicate Aftermath(p: Params, s: Pool, k: CircuitKey, c: Circuit) {
    || (k in s.circuits && (c == s.circuits[k] || c == s.circuits[k].(probe := None)))
    || (c.probe.None? && c.writtenAt == s.now && s.now + p.minWait <= c.retryAt)
  }

  /** `t` is `s` without attempt `id`; only circuits covering it may differ. */
  ghost predicate Ended(p: Params, s: Pool, id: string, t: Pool) {
    && Live(s, id) && t.now == s.now && t.running == s.running - {id}
    && (forall k <- t.circuits :: Covers(k, s.running[id].spec) ==> Aftermath(p, s, k, t.circuits[k]))
    && (forall k :: !Covers(k, s.running[id].spec) ==> (k in t.circuits <==> k in s.circuits))
    && (forall k <- t.circuits :: !Covers(k, s.running[id].spec) ==> t.circuits[k] == s.circuits[k])
  }

  lemma EndIsEnded(p: Params, s: Pool, step: Step, id: string)
    requires Enabled(p, s, step)
    requires step == Succeed(id) || step == FailOther(id) || (step.FailCapacity? && step.id == id)
    ensures Ended(p, s, id, Apply(p, s, step))
  {
    var spec := s.running[id].spec;
    forall k ensures Covers(k, spec) <==> k == WideKey(spec) || k == ModelKey(spec) {
      OnlyTwoCover(k, spec);
    }
  }

  lemma EndedRows(p: Params, s: Pool, id: string, t: Pool)
    requires Inv(p, s) && Ended(p, s, id, t)
    ensures Punctual(p, t) && RowsSane(p, t)
  {
    forall k | k in t.circuits
      ensures var c := t.circuits[k];
        c.writtenAt <= s.now && c.writtenAt + p.minWait <= c.retryAt && (c.latched ==> c.probe.None?)
    {
      assert !Covers(k, s.running[id].spec) || Aftermath(p, s, k, t.circuits[k]);
    }
  }

  lemma EndedProbes(p: Params, s: Pool, id: string, t: Pool)
    requires Inv(p, s) && Ended(p, s, id, t)
    ensures HoldersRecorded(t) && Alone(t)
  {
    forall x | Live(t, x) && t.running[x].probe.Some?
      ensures !Covers(t.running[x].probe.value, s.running[id].spec)
    {
      assert Live(s, x) && x != id;
    }
  }

  lemma EndedGates(p: Params, s: Pool, id: string, t: Pool)
    requires Inv(p, s) && Ended(p, s, id, t)
    ensures NoneUngated(t)
  {
    forall x, k | Live(t, x) && k in t.circuits && Covers(k, t.running[x].spec)
      ensures Accounted(t, x, k)
    {
      assert Live(s, x);
      if k in s.circuits {
        assert Accounted(s, x, k);
      }
      assert !Covers(k, s.running[id].spec) || Aftermath(p, s, k, t.circuits[k]);
    }
  }

  predicate Quiet(step: Step) {
    step.Tick? || step.MeetLatched? || step.Crash? || step.Reclaim? || step.OperatorClear?
  }

  /** A quiet step starts nobody and writes no row. */
  lemma QuietAdds(p: Params, s: Pool, step: Step)
    requires Enabled(p, s, step) && Quiet(step)
    ensures var t := Apply(p, s, step);
      && (forall x :: Live(t, x) ==> Live(s, x) && t.running[x] == s.running[x])
      && (forall k <- t.circuits :: k in s.circuits && t.circuits[k] == s.circuits[k])
  {
  }

  lemma QuietRows(p: Params, s: Pool, step: Step)
    requires Inv(p, s) && Enabled(p, s, step) && Quiet(step)
    ensures var t := Apply(p, s, step); Punctual(p, t) && RowsSane(p, t) && NoneUngated(t)
  {
    hide Covers, HoldersRecorded, Alone;
    var t := Apply(p, s, step);
    QuietAdds(p, s, step);
    forall x, k | Live(t, x) && k in t.circuits && Covers(k, t.running[x].spec) ensures Accounted(t, x, k) {
      assert Accounted(s, x, k);
    }
  }

  lemma QuietProbes(p: Params, s: Pool, step: Step)
    requires Inv(p, s) && Enabled(p, s, step) && Careful(s, step) && Quiet(step)
    ensures var t := Apply(p, s, step); HoldersRecorded(t) && Alone(t)
  {
    hide Covers, NoneUngated, RowsSane, Punctual;
    QuietAdds(p, s, step);
  }

  lemma QuietKeeps(p: Params, s: Pool, step: Step)
    requires Inv(p, s) && Enabled(p, s, step) && Careful(s, step) && Quiet(step)
    ensures Inv(p, Apply(p, s, step))
  {
    QuietRows(p, s, step);
    QuietProbes(p, s, step);
  }

  lemma StepKeeps(p: Params, s: Pool, step: Step)
    requires Timely(p) && 0.0 <= p.timeout && Inv(p, s) && Enabled(p, s, step) && Careful(s, step)
    ensures Inv(p, Apply(p, s, step))
  {
    if step.Start? {
      StartRows(p, s, step.id, step.spec);
      StartProbes(p, s, step.id, step.spec);
    } else if step.Succeed? || step.FailOther? || step.FailCapacity? {
      var t := Apply(p, s, step);
      EndIsEnded(p, s, step, step.id);
      EndedRows(p, s, step.id, t);
      EndedProbes(p, s, step.id, t);
      EndedGates(p, s, step.id, t);
    } else {
      QuietKeeps(p, s, step);
    }
  }

  lemma {:induction false} RunsKeep(p: Params, s: Pool, steps: seq<Step>, t: Pool)
    requires Timely(p) && 0.0 <= p.timeout && Inv(p, s) && CarefulRuns(p, s, steps, t)
    ensures Inv(p, t)
    decreases |steps|
  {
    if steps != [] {
      StepKeeps(p, s, steps[0]);
      RunsKeep(p, Apply(p, s, steps[0]), steps[1..], t);
    }
  }

  lemma InvGivesSingleFlight(p: Params, s: Pool)
    requires Inv(p, s)
    ensures SingleFlight(s)
  {
  }

  /**
   With timely bounds and no operator clear of a row under probe, every run keeps
   one live prober per circuit, and no end of an attempt takes another's probe.
   */
  lemma TimelyIsSafe(p: Params, s: Pool)
    requires Timely(p) && 0.0 <= p.timeout && CarefullyReachable(p, s)
    ensures SingleFlight(s)
    ensures forall id, other :: !StealsProbe(s, id, other)
  {
    var steps :| CarefulRuns(p, Idle, steps, s);
    RunsKeep(p, Idle, steps, s);
    InvGivesSingleFlight(p, s);
    forall id, other ensures !StealsProbe(s, id, other) {
      OthersUntouched(s, id, other);
    }
  }
}
