/**
 An operator's retry deletes the circuit row its block names, whatever state the
 row is in by then: what that may break, and where it breaks nothing.
 */
module OperatorClears {
  import opened Options
  import opened ProviderCapacity
  import opened CapacityProtocol
  import opened ProbeSafety
  import opened ProbeLimits

  // ------------------------------------------- clears that are always careful

  ghost predicate LatchedUnprobed(s: Pool) {
    forall k <- s.circuits :: s.circuits[k].latched ==> s.circuits[k].probe.None?
  }

  lemma {:induction false} LatchedStayUnprobed(p: Params, s: Pool, steps: seq<Step>, t: Pool)
    requires LatchedUnprobed(s) && Runs(p, s, steps, t)
    ensures LatchedUnprobed(t)
    decreases |steps|
  {
    if steps != [] {
      LatchedStayUnprobed(p, Apply(p, s, steps[0]), steps[1..], t);
    }
  }

  /** In every run, whatever was cleared before, a row that is still latched can be cleared without harm. */
  lemma LatchedClearsAreCareful(p: Params, s: Pool, key: CircuitKey)
    requires Reachable(p, s) && (key in s.circuits ==> s.circuits[key].latched)
    ensures Careful(s, OperatorClear(key))
  {
    var steps :| Runs(p, Idle, steps, s);
    LatchedStayUnprobed(p, Idle, steps, s);
  }

  // -------------------------------------------------- a clear under a probe

  /** When the second of two account-level failures latches: one ceiling past the first one's wait. */
  function Late(p: Params): real {
    p.minWait + 1.0 + p.policy.outageCeiling
  }

  function Latched(p: Params): Circuit {
    Circuit(0.0, Late(p) + p.minWait, true, None, Late(p))
  }

  // The account's circuit after a first failure whose wait is a little longer than the shortest.
  function First(p: Params): Circuit {
    Circuit(0.0, p.minWait + 1.0, false, None, 0.0)
  }

  lemma OpensAccount(p: Params, spec: Spec)
    requires Roomy(p, spec)
    ensures Reachable(p, Pool(Late(p), map[WideKey(spec) := First(p)], map[], multiset{}))
  {
    hide Reachable, Count, Cap, Admits;
    var w := WideKey(spec);
    ReachIdle(p);
    GateDecides(p, Idle, spec);
    ReachNext(p, Idle, Start("a", spec));
    var s1 := Pool(0.0, map[], map["a" := Fresh(spec, 0.0, None)], multiset{});
    assert Apply(p, Idle, Start("a", spec)) == s1;
    ReachNext(p, s1, FailCapacity("a", Some(Quota), p.minWait + 1.0));
    var s2 := Pool(0.0, map[w := First(p)], map[], multiset{});
    assert Apply(p, s1, FailCapacity("a", Some(Quota), p.minWait + 1.0)) == s2;
    ReachNext(p, s2, Tick(Late(p)));
  }

  /** A second account-level failure latches the circuit and opens a block that names it. */
  lemma Latches(p: Params, spec: Spec)
    requires Roomy(p, spec)
    ensures Reachable(p, Pool(Late(p), map[WideKey(spec) := Latched(p)], map[], multiset{WideKey(spec)}))
  {
    hide Reachable, Count, Cap, Admits;
    var w, t := WideKey(spec), Late(p);
    OpensAccount(p, spec);
    var s3 := Pool(t, map[w := First(p)], map[], multiset{});
    GateDecides(p, s3, spec);
    ReachNext(p, s3, Start("b", spec));
    var s4 := Pool(t, map[w := First(p).(probe := Some(Probe("b", t)))], map["b" := Fresh(spec, t, Some(w))], multiset{});
    assert Apply(p, s3, Start("b", spec)) == s4;
    ReachNext(p, s4, FailCapacity("b", Some(Quota), t + p.minWait));
    SecondFailure(p, s4, w);
    assert Apply(p, s4, FailCapacity("b", Some(Quota), t + p.minWait))
        == Pool(t, map[w := Latched(p)], map[], multiset{w});
  }

  /** One ceiling after the first wait ended, the outage still counts from its start, which is now too long ago. */
  lemma SecondFailure(p: Params, s: Pool, k: CircuitKey)
    requires 0.0 <= p.minWait && s.now == Late(p)
    requires k in s.circuits && s.circuits[k].(probe := None) == First(p)
    ensures Upserted(p, s, k, Some(Quota), Late(p) + p.minWait) == Latched(p)
  {
  }

  /** A start that meets the latched circuit opens a second block; resolving the first clears the row. */
  lemma OneBlockLeft(p: Params, spec: Spec)
    requires Roomy(p, spec)
    ensures Reachable(p, Pool(Late(p), map[], map[], multiset{WideKey(spec)}))
  {
    hide Reachable, Cap;
    var w, t := WideKey(spec), Late(p);
    Latches(p, spec);
    var s5 := Pool(t, map[w := Latched(p)], map[], multiset{w});
    CountAtMost(s5.running, PoolKey(p, spec));
    ReachNext(p, s5, MeetLatched(spec));
    var s6 := s5.(blocks := multiset{w, w});
    assert Apply(p, s5, MeetLatched(spec)) == s6;
    ReachNext(p, s6, OperatorClear(w));
    assert Apply(p, s6, OperatorClear(w)) == Pool(t, map[], map[], multiset{w}) by {
      assert s6.circuits - {w} == map[];
    }
  }

  // A circuit opened at that time, with the shortest wait.
  function Reopened(p: Params): Circuit {
    Circuit(Late(p), Late(p) + p.minWait, false, None, Late(p))
  }

  /** In the next outage two attempts open the model's circuit and the account's. */
  lemma OpensBoth(p: Params, spec: Spec)
    requires Roomy(p, spec) && ScopeOf(p, spec).PerModel?
    ensures Reachable(p, Pool(Late(p), map[ModelKey(spec) := Reopened(p), WideKey(spec) := Reopened(p)], map[],
      multiset{WideKey(spec)}))
  {
    hide Reachable, Count, Cap, Admits;
    var m, w, t := ModelKey(spec), WideKey(spec), Late(p);
    var a := Fresh(spec, t, None);
    OneBlockLeft(p, spec);
    var s0 := Pool(t, map[], map[], multiset{w});
    GateDecides(p, s0, spec);
    ReachNext(p, s0, Start("a", spec));
    var s1 := s0.(running := map["a" := a]);
    assert Apply(p, s0, Start("a", spec)) == s1;
    GateDecides(p, s1, spec);
    ReachNext(p, s1, Start("b", spec));
    var s2 := s0.(running := map["a" := a, "b" := a]);
    assert Apply(p, s1, Start("b", spec)) == s2;
    ReachNext(p, s2, FailCapacity("a", None, t + p.minWait));
    var s3 := Pool(t, map[m := Reopened(p)], map["b" := a], multiset{w});
    assert Apply(p, s2, FailCapacity("a", None, t + p.minWait)) == s3 by {
      assert s2.running - {"a"} == map["b" := a];
    }
    ReachNext(p, s3, FailCapacity("b", Some(Quota), t + p.minWait));
    var s4 := Pool(t, map[m := Reopened(p), w := Reopened(p)], map[], multiset{w});
    assert Apply(p, s3, FailCapacity("b", Some(Quota), t + p.minWait)) == s4 by {
      assert s3.running - {"b"} == map[];
    }
  }

  function ProbeTime(p: Params): real {
    Late(p) + p.minWait
  }

  function Held(p: Params, holder: string): Circuit {
    Reopened(p).(probe := Some(Probe(holder, ProbeTime(p))))
  }

  /** `c` probes the account's circuit, whose row the second block's resolution deletes; `d` then probes the model's. */
  lemma ClearUnderProbe(p: Params, spec: Spec)
    requires Roomy(p, spec) && ScopeOf(p, spec).PerModel?
    ensures Reachable(p, Pool(ProbeTime(p), map[ModelKey(spec) := Held(p, "d")],
      map["c" := Fresh(spec, ProbeTime(p), Some(WideKey(spec))), "d" := Fresh(spec, ProbeTime(p), Some(ModelKey(spec)))],
      multiset{}))
  {
    hide Reachable, Count, Cap, Admits, Late;
    var m, w, t := ModelKey(spec), WideKey(spec), ProbeTime(p);
    OpensBoth(p, spec);
    var s4 := Pool(Late(p), map[m := Reopened(p), w := Reopened(p)], map[], multiset{w});
    ReachNext(p, s4, Tick(t));
    var s5 := s4.(now := t);
    GateDecides(p, s5, spec);
    ReachNext(p, s5, Start("c", spec));
    var c := Fresh(spec, t, Some(w));
    var s6 := Pool(t, map[m := Reopened(p), w := Held(p, "c")], map["c" := c], multiset{w});
    assert Apply(p, s5, Start("c", spec)) == s6;
    ReachNext(p, s6, OperatorClear(w));
    var s7 := Pool(t, map[m := Reopened(p)], map["c" := c], multiset{});
    assert Apply(p, s6, OperatorClear(w)) == s7 by {
      assert s6.circuits - {w} == s7.circuits;
    }
    GateDecides(p, s7, spec);
    ReachNext(p, s7, Start("d", spec));
    assert Apply(p, s7, Start("d", spec)) == Pool(t, map[m := Held(p, "d")],
      map["c" := c, "d" := Fresh(spec, t, Some(m))], multiset{});
  }

  /**
   With per-model pools one clear under a probe is enough, whatever the timing
   bounds: the end of the attempt that lost its row releases a sibling's probe.
   */
  lemma ClearBreaksFlight(p: Params, spec: Spec) returns (bad: Pool)
    requires Roomy(p, spec) && ScopeOf(p, spec).PerModel?
    ensures Reachable(p, bad) && !AccountFlight(bad, spec)
  {
    hide Reachable, Count, Cap, Admits, Late;
    var m, w, t := ModelKey(spec), WideKey(spec), ProbeTime(p);
    var d := Fresh(spec, t, Some(m));
    ClearUnderProbe(p, spec);
    var s8 := Pool(t, map[m := Held(p, "d")], map["c" := Fresh(spec, t, Some(w)), "d" := d], multiset{});
    ReachNext(p, s8, FailOther("c"));
    var s9 := Pool(t, map[m := Reopened(p)], map["d" := d], multiset{});
    assert Apply(p, s8, FailOther("c")) == s9 by {
      assert s8.running - {"c"} == s9.running;
    }
    GateDecides(p, s9, spec);
    ReachNext(p, s9, Start("e", spec));
    bad := Apply(p, s9, Start("e", spec));
    assert Live(bad, "d") && Live(bad, "e") && bad.running["d"].probe == bad.running["e"].probe;
  }

  // -------------------------------------------------- endpoint-wide accounts

  /** The account has one circuit, written before any live attempt on it, or held by the only live attempt. */
  ghost predicate OneCircuit(p: Params, s: Pool, spec: Spec) {
    var w := WideKey(spec);
    && (forall k <- s.circuits :: k.runtime == spec.runtime && k.provider == spec.provider ==> k == w)
    && (w in s.circuits ==>
          s.circuits[w].writtenAt <= s.now && s.circuits[w].writtenAt + p.minWait <= s.circuits[w].retryAt)
  }

  ghost predicate OneGate(s: Pool, spec: Spec) {
    var w := WideKey(spec);
    && (forall a :: Live(s, a) && !SameAccount(s.running[a].spec, spec) ==> s.running[a].probe != Some(w))
    && (forall a :: Live(s, a) && SameAccount(s.running[a].spec, spec) ==>
          && (s.running[a].probe.Some? ==> s.running[a].probe.value == w)
          && (w in s.circuits ==> s.running[a].startedAt <= s.circuits[w].writtenAt || RecordedHolder(s, w, a)))
  }

  ghost predicate HolderAlone(s: Pool, spec: Spec) {
    forall a, b ::
      RecordedHolder(s, WideKey(spec), a) && Live(s, b) && SameAccount(s.running[b].spec, spec) ==> a == b
  }

  ghost predicate AccountInv(p: Params, s: Pool, spec: Spec) {
    Punctual(p, s) && OneCircuit(p, s, spec) && OneGate(s, spec) && HolderAlone(s, spec) && AccountFlight(s, spec)
  }

  /** When the account's probe can be claimed, nobody on the account is live. */
  lemma ClaimFindsEmptyAccount(p: Params, s: Pool, spec: Spec, a: string)
    requires Timely(p) && AccountInv(p, s, spec) && WideKey(spec) in s.circuits
    requires Passable(p, s.circuits[WideKey(spec)], s.now) && Live(s, a)
    ensures !SameAccount(s.running[a].spec, spec)
  {
  }

  lemma StartKeepsAccount(p: Params, s: Pool, spec: Spec, id: string, started: Spec)
    requires Timely(p) && 0.0 <= p.timeout && AccountInv(p, s, spec) && Enabled(p, s, Start(id, started))
    ensures AccountInv(p, Apply(p, s, Start(id, started)), spec)
  {
    if SameAccount(started, spec) {
      StartHere(p, s, spec, id, started);
    } else {
      StartElsewhere(p, s, spec, id, started);
    }
  }

  /** Whoever is live on the account after a start joined it with no row, or is the one who started. */
  lemma StartJoins(p: Params, s: Pool, spec: Spec, id: string, started: Spec)
    requires Timely(p) && AccountInv(p, s, spec) && Enabled(p, s, Start(id, started)) && SameAccount(started, spec)
    ensures var t := Apply(p, s, Start(id, started));
      && Gate(s.circuits, started) == (if WideKey(spec) in s.circuits then Some(WideKey(spec)) else None)
      && (forall a :: Live(t, a) && a != id ==> Live(s, a) && t.running[a] == s.running[a])
      && (WideKey(spec) in s.circuits ==> forall a :: Live(s, a) ==> !SameAccount(s.running[a].spec, spec))
  {
    hide Count, Cap;
    if WideKey(spec) in s.circuits {
      forall a | Live(s, a) ensures !SameAccount(s.running[a].spec, spec) {
        ClaimFindsEmptyAccount(p, s, spec, a);
      }
    }
  }

  lemma StartHere(p: Params, s: Pool, spec: Spec, id: string, started: Spec)
    requires Timely(p) && 0.0 <= p.timeout && AccountInv(p, s, spec) && Enabled(p, s, Start(id, started))
    requires SameAccount(started, spec)
    ensures AccountInv(p, Apply(p, s, Start(id, started)), spec)
  {
    hide Admits, Gate;
    StartJoins(p, s, spec, id, started);
  }

  lemma StartElsewhere(p: Params, s: Pool, spec: Spec, id: string, started: Spec)
    requires 0.0 <= p.timeout && AccountInv(p, s, spec) && Enabled(p, s, Start(id, started))
    requires !SameAccount(started, spec)
    ensures AccountInv(p, Apply(p, s, Start(id, started)), spec)
  {
    hide Count, Cap;
    var t := Apply(p, s, Start(id, started));
    assert Gate(s.circuits, started).Some? ==> !(Gate(s.circuits, started).value == WideKey(spec));
    forall a | Live(t, a) && a != id ensures Live(s, a) && t.running[a] == s.running[a] {
    }
    OnlyFewer(s, t, spec);
  }

  /** Fewer live attempts on the account, and its row kept, gone or without probe: the holder stays alone. */
  lemma OnlyFewer(s: Pool, t: Pool, spec: Spec)
    requires HolderAlone(s, spec) && AccountFlight(s, spec)
    requires forall a :: Live(t, a) && SameAccount(t.running[a].spec, spec) ==> Live(s, a) && t.running[a] == s.running[a]
    requires forall a :: RecordedHolder(t, WideKey(spec), a) ==> RecordedHolder(s, WideKey(spec), a)
    ensures AccountFlight(t, spec)
    ensures HolderAlone(t, spec)
  {
  }

  /** The end of an attempt rewrites the account's row now, drops its probe, or leaves it; it writes no other row there. */
  lemma EndLeaves(p: Params, s: Pool, spec: Spec, step: Step, id: string)
    requires OneCircuit(p, s, spec) && ScopeOf(p, spec).EndpointWide? && Enabled(p, s, step)
    requires step == Succeed(id) || step == FailOther(id) || (step.FailCapacity? && step.id == id)
    ensures var t, w := Apply(p, s, step), WideKey(spec);
      && t.now == s.now && OneCircuit(p, t, spec)
      && (forall a :: Live(t, a) ==> Live(s, a) && a != id && t.running[a] == s.running[a])
      && (w in t.circuits ==>
            || (w in s.circuits && t.circuits[w] == s.circuits[w])
            || (SameAccount(s.running[id].spec, spec) && w in s.circuits
                && t.circuits[w] == s.circuits[w].(probe := None))
            || (t.circuits[w].writtenAt == s.now && t.circuits[w].probe.None?))
  {
  }

  lemma EndKeepsAccount(p: Params, s: Pool, spec: Spec, step: Step, id: string)
    requires AccountInv(p, s, spec) && ScopeOf(p, spec).EndpointWide? && Enabled(p, s, step)
    requires step == Succeed(id) || step == FailOther(id) || (step.FailCapacity? && step.id == id)
    ensures AccountInv(p, Apply(p, s, step), spec)
  {
    EndLeaves(p, s, spec, step, id);
    OnlyFewer(s, Apply(p, s, step), spec);
  }

  lemma QuietKeepsAccount(p: Params, s: Pool, spec: Spec, step: Step)
    requires AccountInv(p, s, spec) && Enabled(p, s, step)
    requires Quiet(step)
    ensures AccountInv(p, Apply(p, s, step), spec)
  {
    QuietAdds(p, s, step);
    OnlyFewer(s, Apply(p, s, step), spec);
  }

  lemma {:induction false} RunsKeepAccount(p: Params, s: Pool, steps: seq<Step>, t: Pool, spec: Spec)
    requires Timely(p) && 0.0 <= p.timeout && ScopeOf(p, spec).EndpointWide?
    requires AccountInv(p, s, spec) && Runs(p, s, steps, t)
    ensures AccountInv(p, t, spec)
    decreases |steps|
  {
    hide AccountInv;
    if steps != [] {
      var step := steps[0];
      if step.Start? {
        StartKeepsAccount(p, s, spec, step.id, step.spec);
      } else if step.Succeed? || step.FailOther? || step.FailCapacity? {
        EndKeepsAccount(p, s, spec, step, step.id);
      } else {
        QuietKeepsAccount(p, s, spec, step);
      }
      RunsKeepAccount(p, Apply(p, s, step), steps[1..], t, spec);
    }
  }

  /** An endpoint-wide account keeps one live prober under timely bounds, whatever operators clear. */
  lemma EndpointWideIsSafe(p: Params, s: Pool, spec: Spec)
    requires Timely(p) && 0.0 <= p.timeout && ScopeOf(p, spec).EndpointWide? && Reachable(p, s)
    ensures AccountFlight(s, spec)
    ensures forall id, other :: Live(s, id) && SameAccount(s.running[id].spec, spec) ==> !StealsProbe(s, id, other)
  {
    var steps :| Runs(p, Idle, steps, s);
    RunsKeepAccount(p, Idle, steps, s, spec);
  }

  lemma {:induction false} CarefulIsReachable(p: Params, s: Pool)
    requires CarefullyReachable(p, s)
    ensures Reachable(p, s)
  {
    var steps :| CarefulRuns(p, Idle, steps, s);
    CarefulRunsAreRuns(p, Idle, steps, s);
  }

  /**
   With clears allowed at any moment, an account keeps single flight in every run
   exactly when its pool is endpoint-wide and both timing bounds hold.
   */
  lemma AnyClearsFlightIff(p: Params, spec: Spec)
    requires Roomy(p, spec)
    ensures (forall s :: Reachable(p, s) ==> AccountFlight(s, spec))
      <==> Timely(p) && ScopeOf(p, spec).EndpointWide?
  {
    if ScopeOf(p, spec).PerModel? {
      var _ := ClearBreaksFlight(p, spec);
    } else if Timely(p) {
      forall s | Reachable(p, s) ensures AccountFlight(s, spec) {
        EndpointWideIsSafe(p, s, spec);
      }
    } else if p.policy.probeStaleAfter < p.timeout {
      var bad := ShortStaleBoundUnsafe(p, spec);
      CarefulIsReachable(p, bad);
    } else {
      var bad := ShortWaitUnsafe(p, spec);
      CarefulIsReachable(p, bad);
    }
  }
}
