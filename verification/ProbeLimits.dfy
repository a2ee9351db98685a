/** The probe's timing bounds are necessary as well as sufficient. */
module ProbeLimits {
  import opened Options
  import opened ProviderCapacity
  import opened CapacityProtocol
  import opened ProbeSafety

  lemma CountAtMost(running: map<string, Attempt>, key: CircuitKey)
    ensures Count(running, key) <= |running|
  {
    var counted := set id | id in running && Covers(key, running[id].spec);
    assert counted <= running.Keys;
    SubsetSize(counted, running.Keys);
  }

  /** Settings under which a pool can hold two attempts at once. */
  predicate Roomy(p: Params, spec: Spec) {
    && 2 <= Cap(p, spec) && 0.0 <= p.timeout && 0.0 <= p.minWait
    && 0.0 <= p.policy.outageCeiling && 0.0 <= p.policy.probeStaleAfter
  }

  /** With at most one row running, only the gate decides. */
  lemma GateDecides(p: Params, s: Pool, spec: Spec)
    requires Roomy(p, spec) && |s.running| <= 1
    requires var gate := Gate(s.circuits, spec); gate.Some? ==> Passable(p, s.circuits[gate.value], s.now)
    ensures Admits(p, s, spec)
  {
    CountAtMost(s.running, PoolKey(p, spec));
  }

  // The circuit a first unclassified failure opens, with the shortest allowed wait.
  function Opened(p: Params): Circuit {
    Circuit(0.0, p.minWait, false, None, 0.0)
  }

  function Key(p: Params, spec: Spec): CircuitKey {
    FailureKey(p, spec, None)
  }

  lemma KeyGates(p: Params, spec: Spec, c: Circuit)
    ensures Gate(map[Key(p, spec) := c], spec) == Some(Key(p, spec))
  {
  }

  function Fresh(spec: Spec, at: real, probe: Option<CircuitKey>): Attempt {
    Attempt(spec, at, probe, true)
  }

  /** A probe holder still running, and the circuit it holds, `at` seconds in. */
  function Probing(p: Params, spec: Spec, at: real): Pool {
    Pool(at,
         map[Key(p, spec) := Opened(p).(probe := Some(Probe("b", p.minWait)))],
         map["b" := Fresh(spec, p.minWait, Some(Key(p, spec)))],
         multiset{})
  }

  lemma OpensCircuit(p: Params, spec: Spec)
    requires Roomy(p, spec)
    ensures CarefullyReachable(p, Pool(0.0, map[Key(p, spec) := Opened(p)], map[], multiset{}))
  {
    hide CarefullyReachable, Count, Cap, Admits;
    CareIdle(p);
    GateDecides(p, Idle, spec);
    var s1 := Pool(0.0, map[], map["a" := Fresh(spec, 0.0, None)], multiset{});
    CareNext(p, Idle, Start("a", spec));
    assert Apply(p, Idle, Start("a", spec)) == s1;
    CareNext(p, s1, FailCapacity("a", None, p.minWait));
    assert Apply(p, s1, FailCapacity("a", None, p.minWait))
        == Pool(0.0, map[Key(p, spec) := Opened(p)], map[], multiset{});
  }

  /** A stale bound below the attempt timeout lets a second runner take a live probe. */
  lemma ShortStaleBoundUnsafe(p: Params, spec: Spec) returns (bad: Pool)
    requires Roomy(p, spec) && p.policy.probeStaleAfter < p.timeout
    ensures CarefullyReachable(p, bad) && !SingleFlight(bad) && !AccountFlight(bad, spec)
  {
    hide CarefullyReachable, Count, Cap, Admits;
    OpensCircuit(p, spec);
    var k := Key(p, spec);
    var s2 := Pool(0.0, map[k := Opened(p)], map[], multiset{});
    CareNext(p, s2, Tick(p.minWait));
    var s3 := s2.(now := p.minWait);
    KeyGates(p, spec, Opened(p));
    GateDecides(p, s3, spec);
    CareNext(p, s3, Start("b", spec));
    var s4 := Probing(p, spec, p.minWait);
    assert Apply(p, s3, Start("b", spec)) == s4;
    CareNext(p, s4, Tick(p.minWait + p.timeout));
    var s5 := Probing(p, spec, p.minWait + p.timeout);
    assert Apply(p, s4, Tick(p.minWait + p.timeout)) == s5;
    KeyGates(p, spec, s5.circuits[k]);
    GateDecides(p, s5, spec);
    CareNext(p, s5, Start("c", spec));
    bad := Apply(p, s5, Start("c", spec));
    assert Live(bad, "b") && Live(bad, "c") && bad.running["b"].probe == bad.running["c"].probe;
  }

  /**
   A wait no longer than the attempt timeout lets an attempt from before the
   outage end during the probe, and its release, which names no holder, frees
   the probe of a runner that is still live.
   */
  lemma ShortWaitUnsafe(p: Params, spec: Spec) returns (bad: Pool)
    requires Roomy(p, spec) && p.minWait <= p.timeout
    ensures CarefullyReachable(p, bad) && !SingleFlight(bad) && !AccountFlight(bad, spec)
  {
    hide CarefullyReachable, Count, Cap, Admits;
    var k := Key(p, spec);
    var a := Fresh(spec, 0.0, None);
    CareIdle(p);
    GateDecides(p, Idle, spec);
    CareNext(p, Idle, Start("a", spec));
    var s1 := Pool(0.0, map[], map["a" := a], multiset{});
    assert Apply(p, Idle, Start("a", spec)) == s1;
    GateDecides(p, s1, spec);
    CareNext(p, s1, Start("c", spec));
    var s2 := Pool(0.0, map[], map["a" := a, "c" := a], multiset{});
    assert Apply(p, s1, Start("c", spec)) == s2;
    CareNext(p, s2, FailCapacity("c", None, p.minWait));
    var s3 := Pool(0.0, map[k := Opened(p)], map["a" := a], multiset{});
    assert Apply(p, s2, FailCapacity("c", None, p.minWait)) == s3 by {
      assert s2.running - {"c"} == map["a" := a];
    }
    bad := StragglerReleases(p, spec, s3);
  }

  lemma StragglerReleases(p: Params, spec: Spec, s3: Pool) returns (bad: Pool)
    requires Roomy(p, spec) && p.minWait <= p.timeout && CarefullyReachable(p, s3)
    requires s3 == Pool(0.0, map[Key(p, spec) := Opened(p)], map["a" := Fresh(spec, 0.0, None)], multiset{})
    ensures CarefullyReachable(p, bad) && !SingleFlight(bad) && !AccountFlight(bad, spec)
  {
    hide CarefullyReachable, Count, Cap, Admits;
    var k := Key(p, spec);
    CareNext(p, s3, Tick(p.minWait));
    var s4 := s3.(now := p.minWait);
    KeyGates(p, spec, Opened(p));
    GateDecides(p, s4, spec);
    CareNext(p, s4, Start("b", spec));
    var s5 := Probing(p, spec, p.minWait).(running :=
      map["a" := Fresh(spec, 0.0, None), "b" := Fresh(spec, p.minWait, Some(k))]);
    assert Apply(p, s4, Start("b", spec)) == s5;
    CareNext(p, s5, FailOther("a"));
    var s6 := Probing(p, spec, p.minWait).(circuits := map[k := Opened(p)]);
    assert Apply(p, s5, FailOther("a")) == s6 by {
      assert s5.running - {"a"} == map["b" := Fresh(spec, p.minWait, Some(k))];
    }
    GateDecides(p, s6, spec);
    CareNext(p, s6, Start("d", spec));
    bad := Apply(p, s6, Start("d", spec));
    assert Live(bad, "b") && Live(bad, "d") && bad.running["b"].probe == bad.running["d"].probe;
  }

  /**
   While operators clear no row under probe, single flight holds in every run
   exactly when the stale bound is at least the attempt timeout and every
   recorded wait is longer than it.
   */
  lemma SingleFlightIffTimely(p: Params, spec: Spec)
    requires Roomy(p, spec)
    ensures (forall s :: CarefullyReachable(p, s) ==> SingleFlight(s)) <==> Timely(p)
  {
    if Timely(p) {
      forall s | CarefullyReachable(p, s) ensures SingleFlight(s) {
        TimelyIsSafe(p, s);
      }
    } else if p.policy.probeStaleAfter < p.timeout {
      var _ := ShortStaleBoundUnsafe(p, spec);
    } else {
      var _ := ShortWaitUnsafe(p, spec);
    }
  }
}
