/**
 Provider capacity policy: how long an outage is ridden out, which in-flight cap
 applies, and the reference string that names a circuit.
 */
module ProviderCapacity {
  import opened Options

  datatype LimitScope = RequestConcurrency | Quota | DailyQuota | UnknownCapacity

  datatype CapacityScope = PerModel | EndpointWide

  // Times and ceilings are seconds.
  datatype Policy = Policy(outageCeiling: real, dailyQuotaCeiling: real, probeStaleAfter: real, maxInflight: int)

  const DEFAULTS: Policy := Policy(21600.0, 93600.0, 900.0, 8)

  function CeilingFor(p: Policy, scope: Option<LimitScope>): real {
    if scope == Some(DailyQuota) then p.dailyQuotaCeiling else p.outageCeiling
  }

  predicate OutageExceeded(p: Policy, openedAt: real, now: real, scope: Option<LimitScope>) {
    now - openedAt > CeilingFor(p, scope)
  }

  function QuietThreshold(p: Policy): real {
    if p.dailyQuotaCeiling < p.outageCeiling then p.outageCeiling else p.dailyQuotaCeiling
  }

  function OutageStart(p: Policy, openedAt: Option<real>, retryAt: Option<real>, now: real): real {
    if openedAt.None? then now
    else if retryAt.Some? && now - retryAt.value > QuietThreshold(p) then now
    else openedAt.value
  }

  // ------------------------------------------- the outage window, folded

  // `retryAt` is the time the failure told everyone to wait until.
  datatype CircuitEvent =
    | Failed(at: real, retryAt: real, scope: Option<LimitScope>)
    | Cleared

  datatype Window = Window(openedAt: real, retryAt: real, escalated: bool)

  /** The row one failure writes over the existing row. */
  function Record(p: Policy, existing: Option<Window>, e: CircuitEvent): Window
    requires e.Failed?
  {
    var openedAt := match existing {
      case None => OutageStart(p, None, None, e.at)
      case Some(w) => OutageStart(p, Some(w.openedAt), Some(w.retryAt), e.at)
    };
    Window(openedAt, e.retryAt, OutageExceeded(p, openedAt, e.at, e.scope))
  }

  function Replay(p: Policy, history: seq<CircuitEvent>): Option<Window> {
    if history == [] then None
    else
      var last := history[|history| - 1];
      if last.Cleared? then None else Some(Record(p, Replay(p, history[..|history| - 1]), last))
  }

  /** Failure `i` continues the outage of the one before it. */
  predicate Continues(p: Policy, history: seq<CircuitEvent>, i: nat)
    requires i < |history|
  {
    && 0 < i && history[i].Failed? && history[i - 1].Failed?
    && history[i].at - history[i - 1].retryAt <= QuietThreshold(p)
  }

  /** `start` is the first failure of the last stretch with no clear and no quiet gap in it. */
  ghost predicate LastStretch(p: Policy, history: seq<CircuitEvent>, start: nat) {
    && start < |history| && history[start].Failed?
    && !Continues(p, history, start)
    && forall i :: start < i < |history| ==> Continues(p, history, i)
  }

  /** The recorded window is the last unbroken stretch, and it escalates exactly when that stretch is too old. */
  lemma {:induction false} WindowIsLastStretch(p: Policy, history: seq<CircuitEvent>, start: nat)
    requires LastStretch(p, history, start)
    ensures var last := history[|history| - 1];
      last.Failed? &&
      Replay(p, history)
        == Some(Window(history[start].at, last.retryAt,
                       last.at - history[start].at > CeilingFor(p, last.scope)))
    decreases |history|
  {
    var front, n := history[..|history| - 1], |history| - 1;
    if start < n {
      assert Continues(p, history, n);
      assert forall i :: start <= i < n ==> Continues(p, front, i) == Continues(p, history, i);
      WindowIsLastStretch(p, front, start);
    } else if n > 0 && history[n - 1].Failed? {
      FailureLeavesRow(p, front);
    }
  }

  /** One more failure starts a new outage exactly when the gap since the last wait exceeds both ceilings. */
  lemma GapDecides(p: Policy, w: Window, e: CircuitEvent)
    requires e.Failed?
    ensures var gap := e.at - w.retryAt;
      Record(p, Some(w), e).openedAt
        == if gap > p.outageCeiling && gap > p.dailyQuotaCeiling then e.at else w.openedAt
  {
  }

  /** A daily quota is measured against its own ceiling, to the second; everything else against the outage ceiling. */
  lemma CeilingIsScoped(p: Policy, history: seq<CircuitEvent>, start: nat)
    requires LastStretch(p, history, start)
    ensures var last := history[|history| - 1];
      && last.Failed? && Replay(p, history).Some?
      && (last.scope == Some(DailyQuota) ==>
            (Replay(p, history).value.escalated <==> last.at - history[start].at > p.dailyQuotaCeiling))
      && (last.scope != Some(DailyQuota) ==>
            (Replay(p, history).value.escalated <==> last.at - history[start].at > p.outageCeiling))
  {
    WindowIsLastStretch(p, history, start);
  }

  lemma FailureLeavesRow(p: Policy, history: seq<CircuitEvent>)
    requires history != [] && history[|history| - 1].Failed?
    ensures Replay(p, history).Some? && Replay(p, history).value.retryAt == history[|history| - 1].retryAt
  {
  }

  /** A row exists exactly when the history ends in a failure, and then a last stretch exists. */
  lemma {:induction false} LastStretchExists(p: Policy, history: seq<CircuitEvent>) returns (start: nat)
    requires history != [] && history[|history| - 1].Failed?
    ensures LastStretch(p, history, start)
    decreases |history|
  {
    var n := |history| - 1;
    if Continues(p, history, n) {
      var front := history[..n];
      start := LastStretchExists(p, front);
      assert forall i :: start <= i < n ==> Continues(p, front, i) == Continues(p, history, i);
    } else {
      start := n;
    }
  }

  /** After any history ending in a failure, escalation means one unbroken stretch older than the scope's ceiling. */
  lemma EscalatesIff(p: Policy, history: seq<CircuitEvent>)
    requires history != [] && history[|history| - 1].Failed?
    ensures var last := history[|history| - 1];
      Replay(p, history).Some? &&
      (Replay(p, history).value.escalated <==>
        exists start: nat :: LastStretch(p, history, start) && last.at - history[start].at > CeilingFor(p, last.scope))
  {
    var start := LastStretchExists(p, history);
    WindowIsLastStretch(p, history, start);
    forall other: nat | LastStretch(p, history, other)
      ensures history[other].at == history[start].at
    {
      WindowIsLastStretch(p, history, other);
    }
  }

  /** A fresh or reset window never escalates at once. */
  lemma FreshNeverEscalates(p: Policy, history: seq<CircuitEvent>)
    requires 0.0 <= p.outageCeiling && 0.0 <= p.dailyQuotaCeiling
    requires history != [] && history[|history| - 1].Failed?
    requires !Continues(p, history, |history| - 1)
    ensures Replay(p, history).Some? && !Replay(p, history).value.escalated
  {
    WindowIsLastStretch(p, history, |history| - 1);
  }

  /** Waiting up to any scope's ceiling past the retry time never resets the window. */
  lemma LegitimateWaitContinues(
      p: Policy, history: seq<CircuitEvent>, next: CircuitEvent, scope: Option<LimitScope>, start: nat)
    requires LastStretch(p, history, start) && next.Failed?
    requires history[|history| - 1].Failed?
    requires next.at - history[|history| - 1].retryAt <= CeilingFor(p, scope)
    ensures Replay(p, history + [next]).value.openedAt == history[start].at
  {
    var all := history + [next];
    assert Continues(p, all, |history|);
    assert forall i :: start <= i < |history| ==> Continues(p, all, i) == Continues(p, history, i);
    WindowIsLastStretch(p, all, start);
  }

  /** Escalation is reachable for every scope: an outage that waits out its own ceiling once is old enough. */
  lemma EveryScopeEscalates(p: Policy, scope: Option<LimitScope>, t: real, retryAt: real)
    requires 0.0 < CeilingFor(p, scope) && t < retryAt <= t + CeilingFor(p, scope)
    ensures var history := [Failed(t, retryAt, scope), Failed(retryAt + CeilingFor(p, scope), retryAt, scope)];
      Replay(p, history).value.escalated
  {
    var history := [Failed(t, retryAt, scope), Failed(retryAt + CeilingFor(p, scope), retryAt, scope)];
    assert Continues(p, history, 1);
    assert LastStretch(p, history, 0);
    WindowIsLastStretch(p, history, 0);
  }

  // ---------------------------------------------------------- in-flight cap

  /** The first usable candidate, else the built-in fallback. */
  function ResolveMaxInflight(modelCap: Option<int>, providerCap: Option<int>, default: int): (cap: int)
    ensures 0 < cap
  {
    if modelCap.Some? && 0 < modelCap.value then modelCap.value
    else if providerCap.Some? && 0 < providerCap.value then providerCap.value
    else if 0 < default then default
    else DEFAULTS.maxInflight
  }

  /** The source's loop over the candidates, most specific first. */
  method FindMaxInflight(modelCap: Option<int>, providerCap: Option<int>, default: int) returns (cap: int)
    ensures cap == ResolveMaxInflight(modelCap, providerCap, default)
    ensures modelCap.Some? && 0 < modelCap.value ==> cap == modelCap.value
    ensures (modelCap.None? || modelCap.value <= 0) ==>
      if providerCap.Some? && 0 < providerCap.value then cap == providerCap.value
      else cap == if 0 < default then default else 8
  {
    var candidates := [modelCap, providerCap, Some(default)];
    assert candidates[0] == modelCap && candidates[1] == providerCap && candidates[2] == Some(default);
    for i := 0 to |candidates|
      invariant forall j :: 0 <= j < i ==> candidates[j].None? || candidates[j].value <= 0
    {
      if candidates[i].Some? && 0 < candidates[i].value {
        return candidates[i].value;
      }
    }
    cap := DEFAULTS.maxInflight;
  }

  // The configuration store's entries; None where a key is unset.
  datatype CapacityConfig = CapacityConfig(
    outageCeiling: Option<real>, dailyQuotaCeiling: Option<real>, probeStaleAfter: Option<real>,
    maxInflight: Option<int>)

  function OrElse<T>(entry: Option<T>, default: T): T {
    if entry.Some? then entry.value else default
  }

  /** The only way the container makes a policy: a configured cap goes through the resolver as well. */
  function BuildPolicy(config: CapacityConfig): (p: Policy)
    ensures 0 < p.maxInflight
    ensures p.outageCeiling == OrElse(config.outageCeiling, 21600.0)
    ensures p.dailyQuotaCeiling == OrElse(config.dailyQuotaCeiling, 93600.0)
    ensures p.probeStaleAfter == OrElse(config.probeStaleAfter, 900.0)
  {
    Policy(
      OrElse(config.outageCeiling, DEFAULTS.outageCeiling),
      OrElse(config.dailyQuotaCeiling, DEFAULTS.dailyQuotaCeiling),
      OrElse(config.probeStaleAfter, DEFAULTS.probeStaleAfter),
      ResolveMaxInflight(None, None, OrElse(config.maxInflight, DEFAULTS.maxInflight)))
  }

  /** None keys a provider-wide circuit. */
  function CircuitModelId(model: string, limit: Option<LimitScope>, scope: CapacityScope): Option<string> {
    if limit == Some(Quota) || limit == Some(DailyQuota) then None
    else if scope.EndpointWide? then None
    else Some(model)
  }

  // ------------------------------------------------------ circuit references

  const PROVIDER_WIDE_REF := "_provider_wide"
  const CIRCUIT_REF_PREFIX := "runtime-circuit://"
  const STORED_PROVIDER_WIDE := "*"

  datatype CircuitKey = CircuitKey(runtime: string, provider: string, model: Option<string>)

  function CircuitRef(key: CircuitKey): string {
    CIRCUIT_REF_PREFIX + key.runtime + "/" + key.provider + "/" +
    (match key.model case None => PROVIDER_WIDE_REF case Some(m) => m)
  }

  /** `s.split("/", n)`. */
  function SplitSlash(s: string, n: nat): (parts: seq<string>)
    ensures 1 <= |parts| <= n + 1
    decreases n
  {
    if n == 0 || '/' !in s then [s]
    else
      var at := Slash(s);
      [s[..at]] + SplitSlash(s[at + 1..], n - 1)
  }

  /** The position of the first slash. */
  function Slash(s: string): (at: nat)
    requires '/' in s
    ensures at < |s| && s[at] == '/' && '/' !in s[..at]
  {
    if s[0] == '/' then 0 else Slash(s[1..]) + 1
  }

  function RemovePrefix(s: string, prefix: string): string {
    if prefix <= s then s[|prefix|..] else s
  }

  /** Err is the ValueError that unpacking fewer than three parts raises. */
  function ParseCircuitRef(ref: string): Result<CircuitKey, ()> {
    var parts := SplitSlash(RemovePrefix(ref, CIRCUIT_REF_PREFIX), 2);
    if |parts| != 3 then Err(())
    else Ok(CircuitKey(parts[0], parts[1], if parts[2] == PROVIDER_WIDE_REF then None else Some(parts[2])))
  }

  lemma FirstSlash(s: string, k: nat)
    requires k < |s| && s[k] == '/' && '/' !in s[..k]
    ensures Slash(s) == k
  {
    hide Slash;
    var at := Slash(s);
    forall i | 0 <= i < k ensures s[i] != '/' {
      assert s[..k][i] == s[i];
    }
    forall i | 0 <= i < at ensures s[i] != '/' {
      assert s[..at][i] == s[i];
    }
  }

  lemma SlashAt(a: string, b: string)
    requires '/' !in a
    ensures '/' in a + "/" + b && Slash(a + "/" + b) == |a|
    ensures (a + "/" + b)[..|a|] == a && (a + "/" + b)[|a| + 1..] == b
  {
    hide Slash;
    assert (a + "/" + b)[|a|] == '/';
    FirstSlash(a + "/" + b, |a|);
  }

  /** Everything after the prefix of a built reference. */
  function RefBody(key: CircuitKey): string {
    key.runtime + "/" + (key.provider + "/" + (match key.model case None => PROVIDER_WIDE_REF case Some(m) => m))
  }

  lemma RefIsPrefixedBody(key: CircuitKey)
    ensures CircuitRef(key) == CIRCUIT_REF_PREFIX + RefBody(key)
    ensures RemovePrefix(CircuitRef(key), CIRCUIT_REF_PREFIX) == RefBody(key)
  {
    assert CircuitRef(key) == CIRCUIT_REF_PREFIX + RefBody(key);
  }

  lemma SplitOnce(a: string, b: string, n: nat)
    requires '/' !in a && 0 < n
    ensures SplitSlash(a + "/" + b, n) == [a] + SplitSlash(b, n - 1)
  {
    SlashAt(a, b);
  }

  lemma SlashFreeParts(runtime: string, provider: string, rest: string)
    requires '/' !in runtime && '/' !in provider
    ensures SplitSlash(runtime + "/" + (provider + "/" + rest), 2) == [runtime, provider, rest]
  {
    hide SplitSlash;
    SplitOnce(runtime, provider + "/" + rest, 2);
    SplitOnce(provider, rest, 1);
    SplitNever(rest);
  }

  lemma SplitNever(rest: string)
    ensures SplitSlash(rest, 0) == [rest]
  {
  }

  lemma LeadingPartsSlashFree(s: string)
    ensures var parts := SplitSlash(s, 2);
      |parts| == 3 ==> '/' !in parts[0] && '/' !in parts[1]
  {
  }

  /** A reference parses back to its key exactly when its first two parts hold no slash and no model is literally named like the stand-in. */
  lemma RoundTripIff(key: CircuitKey)
    ensures ParseCircuitRef(CircuitRef(key)) == Ok(key)
      <==> '/' !in key.runtime && '/' !in key.provider && key.model != Some(PROVIDER_WIDE_REF)
  {
    RefIsPrefixedBody(key);
    LeadingPartsSlashFree(RefBody(key));
    if '/' !in key.runtime && '/' !in key.provider {
      SlashFreeParts(key.runtime, key.provider,
        match key.model case None => PROVIDER_WIDE_REF case Some(m) => m);
    }
  }

  /** The parts of a reference, in the order they are written: what follows the second slash is the model, slashes included. */
  lemma ParseReads(runtime: string, provider: string, model: string)
    requires '/' !in runtime && '/' !in provider
    ensures ParseCircuitRef("runtime-circuit://" + (runtime + "/" + (provider + "/" + model)))
         == Ok(CircuitKey(runtime, provider, if model == "_provider_wide" then None else Some(model)))
  {
    hide SplitSlash;
    var body := runtime + "/" + (provider + "/" + model);
    assert RemovePrefix(CIRCUIT_REF_PREFIX + body, CIRCUIT_REF_PREFIX) == body;
    SlashFreeParts(runtime, provider, model);
  }

  predicate WellNamed(key: CircuitKey) {
    '/' !in key.runtime && '/' !in key.provider && key.model != Some(PROVIDER_WIDE_REF)
  }

  /** Distinct keys have distinct references, slashes in model ids included. */
  lemma RefsDistinct(a: CircuitKey, b: CircuitKey)
    requires WellNamed(a) && WellNamed(b) && a != b
    ensures CircuitRef(a) != CircuitRef(b)
  {
    RoundTripIff(a);
    RoundTripIff(b);
  }

  lemma CutAtSlash(s: string)
    requires '/' in s
    ensures s == s[..Slash(s)] + "/" + s[Slash(s) + 1..]
  {
  }

  lemma PrefixBack(s: string, prefix: string)
    requires prefix <= s
    ensures s == prefix + RemovePrefix(s, prefix)
  {
  }

  /** Any reference that parses and carries the prefix is the one built from its key. */
  lemma ParsedRefRebuilds(ref: string)
    requires CIRCUIT_REF_PREFIX <= ref && ParseCircuitRef(ref).Ok?
    ensures CircuitRef(ParseCircuitRef(ref).value) == ref
  {
    var body := RemovePrefix(ref, CIRCUIT_REF_PREFIX);
    BodyRebuilds(body);
    RefIsPrefixedBody(ParseCircuitRef(ref).value);
    PrefixBack(ref, CIRCUIT_REF_PREFIX);
  }

  lemma BodyRebuilds(body: string)
    requires |SplitSlash(body, 2)| == 3
    ensures var parts := SplitSlash(body, 2);
      body == parts[0] + "/" + (parts[1] + "/" + parts[2])
  {
    CutAtSlash(body);
    var rest := body[Slash(body) + 1..];
    assert SplitSlash(body, 2)[1..] == SplitSlash(rest, 1);
    CutAtSlash(rest);
  }

  // ------------------------------------------- the exporter's own reader

  function StoredModelId(model: Option<string>): string {
    match model case None => STORED_PROVIDER_WIDE case Some(m) => m
  }

  /** The row key the exporter looks a reference up under, if the reference has the right shape. */
  function ExporterLookup(ref: string): Option<(string, string, string)> {
    if !(CIRCUIT_REF_PREFIX <= ref) then None
    else
      var parts := SplitSlash(RemovePrefix(ref, CIRCUIT_REF_PREFIX), 2);
      if |parts| != 3 then None else Some((parts[0], parts[1], parts[2]))
  }

  /**
   The exporter finds the row a block's reference names exactly when the circuit
   belongs to one model: a provider-wide circuit is stored under another token
   than the one its reference carries.
   */
  lemma ExporterFindsIff(key: CircuitKey)
    requires '/' !in key.runtime && '/' !in key.provider
    ensures ExporterLookup(CircuitRef(key)) == Some((key.runtime, key.provider, StoredModelId(key.model)))
      <==> key.model.Some?
  {
    RefIsPrefixedBody(key);
    SlashFreeParts(key.runtime, key.provider,
      match key.model case None => PROVIDER_WIDE_REF case Some(m) => m);
  }
}
