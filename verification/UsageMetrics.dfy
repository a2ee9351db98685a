/** The exporter's usage metrics: planner, child and combined scopes, and the groups by provider and model. */
module UsageMetrics {
  import opened Options
  import opened Grouping
  import opened Telemetry
  import opened UsageScope

  // ----------------------------------------------------- order does not matter

  lemma TallyMovesLast(front: seq<EventRow>, x: EventRow, back: seq<EventRow>)
    ensures Tally(front + [x] + back) == Tally(front + back + [x])
  {
    TallyConcat(front + [x], back);
    TallyConcat(front, [x]);
    TallyConcat(front + back, [x]);
    TallyConcat(front, back);
    MergeAssociates(Tally(front), Tally([x]), Tally(back));
    MergeCommutes(Tally([x]), Tally(back));
    MergeAssociates(Tally(front), Tally(back), Tally([x]));
  }

  lemma TallyNext(events: seq<EventRow>, e: EventRow)
    ensures Tally(events + [e]) == Note(Tally(events), e)
  {
    assert (events + [e])[..|events|] == events;
  }

  /** The counts depend on which events there are, not on their order. */
  lemma {:induction false} TallyIgnoresOrder(a: seq<EventRow>, b: seq<EventRow>)
    requires multiset(a) == multiset(b)
    ensures Tally(a) == Tally(b)
    decreases |a|
  {
    hide Tally, Note;
    if a == [] {
      assert |multiset(b)| == 0;
    } else {
      var front, x := a[..|a| - 1], a[|a| - 1];
      assert a == front + [x];
      assert x in multiset(b);
      var i :| 0 <= i < |b| && b[i] == x;
      var left, right := b[..i], b[i + 1..];
      assert b == left + [x] + right;
      SameOthers(front, x, left, right);
      TallyIgnoresOrder(front, left + right);
      TallyMovesLast(left, x, right);
      TallyNext(front, x);
      TallyNext(left + right, x);
    }
  }

  /**
   An event of another kind, or without an object for payload, changes nothing
   wherever it stands; any other adds one session.
   */
  lemma OnlyUsageCounts(before: seq<EventRow>, e: EventRow, after: seq<EventRow>)
    ensures e.kind != Some("model.usage") || e.payload.None? ==>
      Tally(before + [e] + after) == Tally(before + after)
    ensures e.kind == Some("model.usage") && e.payload.Some? ==>
      Tally(before + [e] + after).sessions == Tally(before + after).sessions + 1
  {
    hide Tally;
    TallyMovesLast(before, e, after);
    TallyNext(before + after, e);
  }

  // --------------------------------------------------------------- partitions

  /** The counts of the groups of `keys`, added up. */
  function MergeAll<K(==)>(keys: seq<K>, events: seq<EventRow>, key: EventRow -> K): Scope {
    if keys == [] then EMPTY_SCOPE
    else Merge(Tally(Bucket(events, key, keys[0])), MergeAll(keys[1..], events, key))
  }

  lemma {:induction false} MergeAllIsListing<K>(keys: seq<K>, events: seq<EventRow>, key: EventRow -> K)
    ensures MergeAll(keys, events, key) == Tally(Listing(keys, events, key))
  {
    if keys != [] {
      MergeAllIsListing(keys[1..], events, key);
      TallyConcat(Bucket(events, key, keys[0]), Listing(keys[1..], events, key));
    }
  }

  /** However the events are partitioned, the parts add back to the whole. */
  lemma PartitionAddsUp<K>(keys: seq<K>, events: seq<EventRow>, key: EventRow -> K)
    requires ListedOnce(keys, events, key)
    ensures MergeAll(keys, events, key) == Tally(events)
  {
    MergeAllIsListing(keys, events, key);
    ListingConserves(keys, events, key);
    TallyIgnoresOrder(Listing(keys, events, key), events);
  }

  // ------------------------------------------------------------ the scopes

  predicate OfChild(e: EventRow) { e.taskId.Some? }

  /** Combined equals planner plus child, in every field. */
  lemma CombinedIsPlannerPlusChild(events: seq<EventRow>)
    ensures Merge(Tally(Bucket(events, OfChild, false)), Tally(Bucket(events, OfChild, true))) == Tally(events)
  {
    var keys := [false, true];
    PartitionAddsUp(keys, events, OfChild);
    var child := Tally(Bucket(events, OfChild, true));
    assert keys[1..][1..] == [];
    assert keys[1..][0];
    TallyCovers(Bucket(events, OfChild, true));
    MergeEmpty(child);
    assert MergeAll(keys[1..], events, OfChild) == child;
  }

  /** The indices of the usage events of the planner, or of the tasks. */
  function UsageAt(events: seq<EventRow>, ofChild: bool): set<int> {
    set i | 0 <= i < |events| && events[i].kind == Some("model.usage") && events[i].payload.Some?
      && events[i].taskId.Some? == ofChild
  }

  lemma {:induction false} SessionsAre(events: seq<EventRow>, ofChild: bool)
    ensures Tally(Bucket(events, OfChild, ofChild)).sessions == |UsageAt(events, ofChild)|
    decreases |events|
  {
    hide UsageAt, Bucket, Tally;
    if events == [] {
      MetricsStart();
      NobodyYet(ofChild);
    } else {
      var front, last := events[..|events| - 1], events[|events| - 1];
      SessionsAre(front, ofChild);
      SessionsNext(front, last, ofChild);
      assert events == front + [last];
    }
  }

  lemma NobodyYet(ofChild: bool)
    ensures UsageAt([], ofChild) == {}
  {
  }

  lemma SessionsNext(front: seq<EventRow>, last: EventRow, ofChild: bool)
    requires Tally(Bucket(front, OfChild, ofChild)).sessions == |UsageAt(front, ofChild)|
    ensures Tally(Bucket(front + [last], OfChild, ofChild)).sessions == |UsageAt(front + [last], ofChild)|
  {
    hide UsageAt, Bucket, Tally, Note;
    UsageNext(front, last, ofChild);
    BucketSnoc(front, last, OfChild, ofChild);
    TallyNext(Bucket(front, OfChild, ofChild), last);
    NoteSessions(Tally(Bucket(front, OfChild, ofChild)), last);
  }

  lemma UsageNext(events: seq<EventRow>, e: EventRow, ofChild: bool)
    ensures UsageAt(events + [e], ofChild)
         == if e.kind == Some("model.usage") && e.payload.Some? && e.taskId.Some? == ofChild
            then UsageAt(events, ofChild) + {|events|} else UsageAt(events, ofChild)
    ensures |events| !in UsageAt(events, ofChild)
  {
    var more := events + [e];
    assert forall i :: 0 <= i < |events| ==> more[i] == events[i];
    assert |more| == |events| + 1 && more[|events|] == e;
  }

  lemma NoteSessions(s: Scope, e: EventRow)
    ensures Note(s, e).sessions == s.sessions + if e.kind == Some("model.usage") && e.payload.Some? then 1 else 0
  {
  }

  lemma MetricsStart()
    ensures Tally([]) == EMPTY_SCOPE
    ensures forall ofChild :: Bucket([], OfChild, ofChild) == []
  {
  }

  method Metrics(events: seq<EventRow>) returns (planner: Scope, child: Scope, combined: Scope)
    ensures planner == Tally(Bucket(events, OfChild, false))
    ensures child == Tally(Bucket(events, OfChild, true))
    ensures combined == Tally(events)
    // On the fields of the events: which of them open a session, and whose.
    ensures planner.sessions == |UsageAt(events, false)| && child.sessions == |UsageAt(events, true)|
  {
    SessionsAre(events, false);
    SessionsAre(events, true);
    planner, child, combined := EMPTY_SCOPE, EMPTY_SCOPE, EMPTY_SCOPE;
    hide Record, Bucket, Tally;
    MetricsStart();
    for i := 0 to |events|
      invariant planner == Tally(Bucket(events[..i], OfChild, false))
      invariant child == Tally(Bucket(events[..i], OfChild, true))
      invariant combined == Tally(events[..i])
    {
      var e := events[i];
      assert events[..i + 1] == events[..i] + [e];
      BucketSnoc(events[..i], e, OfChild, false);
      BucketSnoc(events[..i], e, OfChild, true);
      TallyNext(Bucket(events[..i], OfChild, OfChild(e)), e);
      TallyNext(events[..i], e);
      if Counted(e) {
        if e.taskId.Some? {
          child := Record(child, e);
        } else {
          planner := Record(planner, e);
        }
        combined := Record(combined, e);
      }
    }
    assert events[..|events|] == events;
  }

  // ------------------------------------------------------ absent token totals

  datatype Field = Prompt | Completion | Total

  function TokenOf(s: Scope, f: Field): Option<int> {
    match f
    case Prompt => s.prompt
    case Completion => s.completion
    case Total => s.total
  }

  function Reported(e: EventRow, f: Field): Option<int> {
    if !Counted(e) then None
    else
      match f
      case Prompt => e.payload.value.prompt
      case Completion => e.payload.value.completion
      case Total => e.payload.value.total
  }

  function Sum(events: seq<EventRow>, f: Field): int {
    if events == [] then 0 else Sum(events[..|events| - 1], f) + OrZero(Reported(events[|events| - 1], f))
  }

  /** A token total is absent exactly when no event reported it, and otherwise is the sum of the reports. */
  lemma {:induction false} AbsentIffUnreported(events: seq<EventRow>, f: Field)
    ensures TokenOf(Tally(events), f).None? <==> forall e <- events :: Reported(e, f).None?
    ensures TokenOf(Tally(events), f).Some? ==> TokenOf(Tally(events), f).value == Sum(events, f)
    ensures TokenOf(Tally(events), f).None? ==> Sum(events, f) == 0
    decreases |events|
  {
    if events != [] {
      var front, last := events[..|events| - 1], events[|events| - 1];
      AbsentIffUnreported(front, f);
      assert events == front + [last];
      assert TokenOf(Tally(events), f) == AddToken(TokenOf(Tally(front), f), Reported(last, f));
    }
  }

  // ---------------------------------------------- groups by provider and model

  type Identity = (Option<string>, Option<string>)

  function IdentityOf(e: EventRow): Identity {
    if e.payload.Some? then (e.payload.value.provider, e.payload.value.model) else (None, None)
  }

  function CountedOnly(events: seq<EventRow>): seq<EventRow> {
    if events == [] then []
    else
      var front, last := CountedOnly(events[..|events| - 1]), events[|events| - 1];
      if Counted(last) then front + [last] else front
  }

  lemma {:induction false} SkippedCountNothing(events: seq<EventRow>)
    ensures Tally(CountedOnly(events)) == Tally(events)
    decreases |events|
  {
    if events != [] {
      var front, last := events[..|events| - 1], events[|events| - 1];
      SkippedCountNothing(front);
      if Counted(last) {
        TallyNext(CountedOnly(front), last);
      }
    }
  }

  // ------------------------------------------------------ what is counted

  function CallsOf(e: EventRow): int {
    if e.payload.Some? then OrZero(e.payload.value.llmCalls) else 0
  }

  function SumCalls(events: seq<EventRow>): int {
    if events == [] then 0 else SumCalls(events[..|events| - 1]) + CallsOf(events[|events| - 1])
  }

  /** How often `q` is bumped: once for each event of that quality, and `observations` for every event besides. */
  function Observed(events: seq<EventRow>, q: string): int {
    |Bucket(events, Quality, q)| + if q == "observations" then |events| else 0
  }

  lemma {:induction false} TallyMeans(events: seq<EventRow>, q: string)
    ensures var s := Tally(events);
      && s.sessions == |CountedOnly(events)|
      && s.calls == SumCalls(CountedOnly(events))
      && CountOf(s.coverage, q) == Observed(CountedOnly(events), q)
    decreases |events|
  {
    if events != [] {
      var front, last := events[..|events| - 1], events[|events| - 1];
      TallyMeans(front, q);
      if Counted(last) {
        BucketSnoc(CountedOnly(front), last, Quality, q);
      }
    }
  }

  /** The indices of the usage events of quality `q`: an absent or empty quality is `legacy_unknown`. */
  function QualityAt(events: seq<EventRow>, q: string): set<int> {
    set i | 0 <= i < |events| && events[i].kind == Some("model.usage") && events[i].payload.Some?
      && (if events[i].quality in {None, Some("")} then q == "legacy_unknown" else events[i].quality == Some(q))
  }

  lemma QualityNext(events: seq<EventRow>, e: EventRow, q: string)
    ensures QualityAt(events + [e], q)
         == if Counted(e) && Quality(e) == q then QualityAt(events, q) + {|events|} else QualityAt(events, q)
    ensures |events| !in QualityAt(events, q)
  {
    var more := events + [e];
    assert forall i :: 0 <= i < |events| ==> more[i] == events[i];
    assert |more| == |events| + 1 && more[|events|] == e;
  }

  /** The coverage on the events' own fields. */
  lemma {:induction false} CoverageIs(events: seq<EventRow>, q: string)
    ensures CountOf(Tally(events).coverage, q)
         == |QualityAt(events, q)| + if q == "observations" then Tally(events).sessions else 0
    decreases |events|
  {
    if events == [] {
      MetricsStart();
      assert QualityAt(events, q) == {};
    } else {
      var n := |events| - 1;
      var front, last := events[..n], events[n];
      hide QualityAt, Tally, Quality;
      CoverageIs(front, q);
      assert events == front + [last];
      TallyNext(front, last);
      QualityNext(front, last, q);
    }
  }

  const QUALITIES := ["reported", "estimated", "unavailable", "legacy_unknown"]

  function CoverageSum(coverage: map<string, int>, qualities: seq<string>): int {
    if qualities == [] then 0 else CountOf(coverage, qualities[0]) + CoverageSum(coverage, qualities[1..])
  }

  lemma {:induction false} CoverageSumIs(events: seq<EventRow>, qualities: seq<string>)
    requires "observations" !in qualities
    ensures CoverageSum(Tally(events).coverage, qualities) == |Listing(qualities, CountedOnly(events), Quality)|
  {
    if qualities != [] {
      TallyMeans(events, qualities[0]);
      CoverageSumIs(events, qualities[1..]);
    }
  }

  /** When every event has one of the four known qualities, they add up to the observations and to the sessions. */
  lemma QualitiesAddUp(events: seq<EventRow>)
    requires forall e <- CountedOnly(events) :: Quality(e) in QUALITIES
    ensures var s := Tally(events);
      CoverageSum(s.coverage, QUALITIES) == CountOf(s.coverage, "observations") == s.sessions
  {
    var counted := CountedOnly(events);
    CoverageSumIs(events, QUALITIES);
    TallyMeans(events, "observations");
    DistinctQualities();
    forall e <- counted ensures multiset(QUALITIES)[Quality(e)] == 1 {
      DistinctOnce(QUALITIES, Quality(e));
    }
    ListingConserves(QUALITIES, counted, Quality);
    assert |multiset(Listing(QUALITIES, counted, Quality))| == |multiset(counted)|;
    BucketNone(counted, Quality, "observations");
  }

  lemma DistinctQualities()
    ensures Distinct(QUALITIES) && "observations" !in QUALITIES
  {
    assert |"reported"| == 8 && |"estimated"| == 9 && |"unavailable"| == 11 && |"legacy_unknown"| == 14;
    assert |"observations"| == 12;
  }

  /** The skip tests and the appends of the grouping loop. */
  method UsageGroups(events: seq<EventRow>) returns (groups: map<Identity, seq<EventRow>>)
    ensures forall k :: Get(groups, k) == Bucket(CountedOnly(events), IdentityOf, k)
    ensures forall k <- groups :: groups[k] != []
  {
    groups := map[];
    for i := 0 to |events|
      invariant forall k :: Get(groups, k) == Bucket(CountedOnly(events[..i]), IdentityOf, k)
      invariant forall k <- groups :: groups[k] != []
    {
      var e := events[i];
      assert events[..i + 1][..i] == events[..i];
      if !Counted(e) {
        continue;
      }
      var k := IdentityOf(e);
      forall other ensures Bucket(CountedOnly(events[..i + 1]), IdentityOf, other)
          == if other == k then Bucket(CountedOnly(events[..i]), IdentityOf, other) + [e]
             else Bucket(CountedOnly(events[..i]), IdentityOf, other) {
        BucketSnoc(CountedOnly(events[..i]), e, IdentityOf, other);
      }
      groups := Append(groups, k, e);
    }
    assert events[..|events|] == events;
  }

  /** The event is counted, under this provider and this model. */
  predicate ReportedAs(e: EventRow, k: Identity) {
    && e.kind == Some("model.usage") && e.payload.Some?
    && e.payload.value.provider == k.0 && e.payload.value.model == k.1
  }

  /** One row for each identity that a counted event reports, over that identity's events. */
  ghost predicate IsUsageOf(usage: map<Identity, Scope>, events: seq<EventRow>) {
    && (forall k :: k in usage <==> exists e <- events :: ReportedAs(e, k))
    && (forall k <- usage :: usage[k] == Tally(Bucket(CountedOnly(events), IdentityOf, k)))
  }

  method UsageComparisons(events: seq<EventRow>) returns (usage: map<Identity, Scope>)
    ensures IsUsageOf(usage, events)
  {
    var groups := UsageGroups(events);
    usage := map[];
    var left := groups.Keys;
    while left != {}
      invariant left <= groups.Keys
      invariant usage.Keys == groups.Keys - left
      invariant forall k <- usage :: usage[k] == Tally(groups[k])
    {
      var k :| k in left;
      var _, _, combined := Metrics(groups[k]);
      usage := usage[k := combined];
      left := left - {k};
    }
    forall k ensures k in usage <==> exists e <- events :: ReportedAs(e, k) {
      GroupsHold(events, groups, k);
    }
    assert forall k <- usage :: Get(groups, k) == groups[k];
  }

  lemma {:induction false} CountedMembers(events: seq<EventRow>, e: EventRow)
    ensures e in CountedOnly(events) <==> e in events && Counted(e)
    decreases |events|
  {
    if events != [] {
      var front, last := events[..|events| - 1], events[|events| - 1];
      CountedMembers(front, e);
      assert events == front + [last];
    }
  }

  lemma GroupsHold(events: seq<EventRow>, groups: map<Identity, seq<EventRow>>, k: Identity)
    requires Get(groups, k) == Bucket(CountedOnly(events), IdentityOf, k)
    requires k in groups ==> groups[k] != []
    ensures k in groups <==> exists e <- events :: ReportedAs(e, k)
  {
    forall e ensures e in Get(groups, k) <==> e in events && ReportedAs(e, k) {
      BucketMembers(CountedOnly(events), IdentityOf, k, e);
      CountedMembers(events, e);
    }
    if k in groups {
      assert Get(groups, k)[0] in Get(groups, k);
    }
  }

  function MergeUsage(keys: seq<Identity>, usage: map<Identity, Scope>): Scope
    requires forall k <- keys :: k in usage
  {
    if keys == [] then EMPTY_SCOPE else Merge(usage[keys[0]], MergeUsage(keys[1..], usage))
  }

  lemma {:induction false} MergeUsageIs(keys: seq<Identity>, usage: map<Identity, Scope>, events: seq<EventRow>)
    requires forall k <- keys :: k in usage && usage[k] == Tally(Bucket(events, IdentityOf, k))
    ensures MergeUsage(keys, usage) == MergeAll(keys, events, IdentityOf)
  {
    if keys != [] {
      MergeUsageIs(keys[1..], usage, events);
    }
  }

  /** The comparison rows, listed in whatever order, add back to the combined scope of all events. */
  lemma GroupsAddBack(events: seq<EventRow>, usage: map<Identity, Scope>, keys: seq<Identity>)
    requires IsUsageOf(usage, events)
    requires Distinct(keys) && forall k :: k in keys <==> k in usage
    ensures MergeUsage(keys, usage) == Tally(events)
  {
    var counted := CountedOnly(events);
    MergeUsageIs(keys, usage, counted);
    forall e <- counted ensures multiset(keys)[IdentityOf(e)] == 1 {
      CountedMembers(events, e);
      DistinctOnce(keys, IdentityOf(e));
    }
    PartitionAddsUp(keys, counted, IdentityOf);
    SkippedCountNothing(events);
  }
}
