/** The in-flight cap: what it bounds in every run, exactly whom, and that it never starves an idle pool. */
module Admission {
  import opened Options
  import opened ProviderCapacity
  import opened CapacityProtocol

  /** The count is within the cap of some model sharing this pool. */
  ghost predicate WithinPool(p: Params, running: map<string, Attempt>, spec: Spec) {
    var n := Count(running, PoolKey(p, spec));
    n == 0 || exists member: Spec :: PoolKey(p, member) == PoolKey(p, spec) && n <= Cap(p, member)
  }

  ghost predicate Capped(p: Params, s: Pool) {
    forall spec: Spec :: WithinPool(p, s.running, spec)
  }

  lemma CountAdds(running: map<string, Attempt>, id: string, a: Attempt, key: CircuitKey)
    requires id !in running
    ensures Count(running[id := a], key) == Count(running, key) + if Covers(key, a.spec) then 1 else 0
  {
    var before := set x | x in running && Covers(key, running[x].spec);
    var more := running[id := a];
    var after := set x | x in more && Covers(key, more[x].spec);
    assert after == if Covers(key, a.spec) then before + {id} else before;
  }

  /** Ending, crashing or reclaiming an attempt only lowers a count. */
  lemma CountShrinks(running: map<string, Attempt>, fewer: map<string, Attempt>, key: CircuitKey)
    requires forall x <- fewer :: x in running && running[x].spec == fewer[x].spec
    ensures Count(fewer, key) <= Count(running, key)
  {
    var before := set x | x in running && Covers(key, running[x].spec);
    var after := set x | x in fewer && Covers(key, fewer[x].spec);
    assert after <= before;
    SubsetSize(after, before);
  }

  /** An attempt is counted in another spec's pool exactly when the two share it. */
  lemma PoolShared(p: Params, a: Spec, b: Spec)
    ensures Covers(PoolKey(p, a), b) <==> PoolKey(p, a) == PoolKey(p, b)
  {
  }

  lemma AdmitKeeps(p: Params, s: Pool, id: string, spec: Spec)
    requires Capped(p, s) && Enabled(p, s, Start(id, spec))
    ensures Capped(p, Apply(p, s, Start(id, spec)))
  {
    var t := Apply(p, s, Start(id, spec));
    forall other: Spec
      ensures WithinPool(p, t.running, other)
    {
      CountAdds(s.running, id, t.running[id], PoolKey(p, other));
      PoolShared(p, other, spec);
      assert WithinPool(p, s.running, other);
    }
  }

  lemma LeaveKeeps(p: Params, s: Pool, t: Pool)
    requires Capped(p, s)
    requires forall x <- t.running :: x in s.running && s.running[x].spec == t.running[x].spec
    ensures Capped(p, t)
  {
    forall other: Spec
      ensures WithinPool(p, t.running, other)
    {
      CountShrinks(s.running, t.running, PoolKey(p, other));
      assert WithinPool(p, s.running, other);
    }
  }

  lemma {:induction false} RunsKeepCaps(p: Params, s: Pool, steps: seq<Step>, t: Pool)
    requires Capped(p, s) && Runs(p, s, steps, t)
    ensures Capped(p, t)
    decreases |steps|
  {
    if steps != [] {
      var next := Apply(p, s, steps[0]);
      if steps[0].Start? {
        AdmitKeeps(p, s, steps[0].id, steps[0].spec);
      } else {
        LeaveKeeps(p, s, next);
      }
      RunsKeepCaps(p, next, steps[1..], t);
    }
  }

  /** In every run, a pool's in-flight count stays within the largest cap resolved for a model in it. */
  lemma NeverOverLargestCap(p: Params, s: Pool, spec: Spec)
    requires Reachable(p, s)
    ensures WithinPool(p, s.running, spec)
  {
    var steps :| Runs(p, Idle, steps, s);
    assert Capped(p, Idle);
    RunsKeepCaps(p, Idle, steps, s);
  }

  // ------------------------------------------------------------- over rows

  /** The running rows of the spec's account. */
  function AccountRows(running: map<string, Attempt>, spec: Spec): set<string> {
    set id | id in running && running[id].spec.runtime == spec.runtime && running[id].spec.provider == spec.provider
  }

  /** Those of them with the spec's model. */
  function ModelRows(running: map<string, Attempt>, spec: Spec): set<string> {
    set id | id in running && running[id].spec == spec
  }

  predicate OneEndpoint(p: Params, spec: Spec) {
    spec.provider in p.providers && p.providers[spec.provider].scope.EndpointWide?
  }

  /** What counts against the cap: the whole account behind one endpoint, else the model's own rows. */
  function InPool(p: Params, running: map<string, Attempt>, spec: Spec): nat {
    if OneEndpoint(p, spec) then |AccountRows(running, spec)| else |ModelRows(running, spec)|
  }

  lemma PoolIsRows(p: Params, running: map<string, Attempt>, spec: Spec)
    ensures Count(running, PoolKey(p, spec)) == InPool(p, running, spec)
  {
    var key := PoolKey(p, spec);
    var counted := set id | id in running && Covers(key, running[id].spec);
    if OneEndpoint(p, spec) {
      assert counted == AccountRows(running, spec);
    } else {
      assert counted == ModelRows(running, spec);
    }
  }

  /**
   In every run an endpoint-wide account has no running row, or no more rows,
   whatever their models, than the cap of some model of that account; any other
   pool has no row, or no more of the model's own than the model's cap.
   */
  lemma RowsWithinCap(p: Params, s: Pool, spec: Spec)
    requires Reachable(p, s)
    ensures OneEndpoint(p, spec) ==>
      var n := |AccountRows(s.running, spec)|;
      n == 0 || exists m :: n <= Cap(p, Spec(spec.runtime, spec.provider, m))
    ensures !OneEndpoint(p, spec) ==>
      var n := |ModelRows(s.running, spec)|; n == 0 || n <= Cap(p, spec)
  {
    hide Cap, Count;
    NeverOverLargestCap(p, s, spec);
    PoolIsRows(p, s.running, spec);
    if n: Spec :| PoolKey(p, n) == PoolKey(p, spec) && Count(s.running, PoolKey(p, spec)) <= Cap(p, n) {
      assert n == Spec(spec.runtime, spec.provider, n.model);
    }
  }

  /** A crashed attempt goes on counting against every pool until it is reclaimed, and then for one. */
  lemma CrashHoldsSlot(p: Params, s: Pool, id: string, spec: Spec)
    ensures Enabled(p, s, Crash(id)) ==> InPool(p, Apply(p, s, Crash(id)).running, spec) == InPool(p, s.running, spec)
    ensures Enabled(p, s, Reclaim(id)) ==>
      var own := s.running[id].spec; InPool(p, Apply(p, s, Reclaim(id)).running, own) == InPool(p, s.running, own) - 1
  {
    if Enabled(p, s, Crash(id)) {
      var t := Apply(p, s, Crash(id));
      assert AccountRows(t.running, spec) == AccountRows(s.running, spec);
      assert ModelRows(t.running, spec) == ModelRows(s.running, spec);
    }
    if Enabled(p, s, Reclaim(id)) {
      var t, own := Apply(p, s, Reclaim(id)), s.running[id].spec;
      assert AccountRows(t.running, own) == AccountRows(s.running, own) - {id};
      assert ModelRows(t.running, own) == ModelRows(s.running, own) - {id};
    }
  }

  // ------------------------------------------------------------ exactness

  function Name(n: nat): string {
    seq(n, i => 'x')
  }

  /** A run that admits `n` attempts of one spec, one after another. */
  lemma {:induction false} Fill(p: Params, spec: Spec, n: nat) returns (s: Pool)
    requires n <= Cap(p, spec)
    ensures Reachable(p, s) && s.circuits == map[]
    ensures Count(s.running, PoolKey(p, spec)) == n
    ensures forall id <- s.running :: |id| < n
  {
    if n == 0 {
      ReachIdle(p);
      s := Idle;
      assert (set x | x in s.running && Covers(PoolKey(p, spec), s.running[x].spec)) == {};
    } else {
      var before := Fill(p, spec, n - 1);
      var id := Name(n - 1);
      assert |id| == n - 1;
      ReachNext(p, before, Start(id, spec));
      s := Apply(p, before, Start(id, spec));
      PoolShared(p, spec, spec);
      CountAdds(before.running, id, s.running[id], PoolKey(p, spec));
    }
  }

  /** A pool keeps within one model's own cap in every run exactly when no model sharing the pool has a larger one. */
  lemma OwnCapIffLargest(p: Params, spec: Spec)
    ensures (forall s :: Reachable(p, s) && 0 < Count(s.running, PoolKey(p, spec)) ==>
                Count(s.running, PoolKey(p, spec)) <= Cap(p, spec))
      <==> (forall member: Spec :: PoolKey(p, member) == PoolKey(p, spec) && 0 < Cap(p, member) ==>
                Cap(p, member) <= Cap(p, spec))
  {
    if forall member: Spec :: PoolKey(p, member) == PoolKey(p, spec) && 0 < Cap(p, member) ==>
        Cap(p, member) <= Cap(p, spec) {
      forall s | Reachable(p, s) && 0 < Count(s.running, PoolKey(p, spec))
        ensures Count(s.running, PoolKey(p, spec)) <= Cap(p, spec)
      {
        NeverOverLargestCap(p, s, spec);
      }
    } else {
      var member: Spec :|
        PoolKey(p, member) == PoolKey(p, spec) && 0 < Cap(p, member) && Cap(p, spec) < Cap(p, member);
      var s := Fill(p, member, Cap(p, member));
      assert Reachable(p, s) && Count(s.running, PoolKey(p, spec)) == Cap(p, member);
    }
  }

  /** With per-model pools the cap is the model's own, always. */
  lemma PerModelNeverOverCap(p: Params, s: Pool, spec: Spec)
    requires Reachable(p, s) && ScopeOf(p, spec).PerModel?
    ensures Count(s.running, PoolKey(p, spec)) == 0 || Count(s.running, PoolKey(p, spec)) <= Cap(p, spec)
  {
    NeverOverLargestCap(p, s, spec);
  }

  /** The cap a catalog resolves to: the model's own if positive, else the provider's if positive, else the default. */
  lemma CapFollowsCatalog(p: Params, config: CapacityConfig, spec: Spec)
    requires p.policy == BuildPolicy(config)
    ensures var default := if config.maxInflight.Some? && 0 < config.maxInflight.value then config.maxInflight.value else 8;
      if spec.provider !in p.providers then Cap(p, spec) == default
      else
        var row := p.providers[spec.provider];
        var own := if spec.model in row.models then row.models[spec.model] else None;
        Cap(p, spec) ==
          if own.Some? && 0 < own.value then own.value
          else if row.maxInflight.Some? && 0 < row.maxInflight.value then row.maxInflight.value
          else default
  {
  }

  /** Under any configuration and any catalog, zero and negative caps included, every spec's cap is positive. */
  lemma CapIsPositive(p: Params, config: CapacityConfig, spec: Spec)
    requires p.policy == BuildPolicy(config)
    ensures 0 < Cap(p, spec)
  {
  }

  /**
   In every state an idle pool admits unless a circuit stands in the way, and
   with one it admits exactly when that circuit is passable.
   */
  lemma IdlePoolAdmits(p: Params, config: CapacityConfig, s: Pool, spec: Spec)
    requires p.policy == BuildPolicy(config) && Count(s.running, PoolKey(p, spec)) == 0
    ensures Admits(p, s, spec) <==>
      var gate := Gate(s.circuits, spec); gate.None? || Passable(p, s.circuits[gate.value], s.now)
  {
    CapIsPositive(p, config, spec);
  }
}
