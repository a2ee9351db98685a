/**
 The comparison rows are built from the events of the report, the metrics from
 all events of the tables: exactly when the two agree.
 */
module ExportTotals {
  import opened Options
  import opened Grouping
  import opened Telemetry
  import opened Correlation
  import opened Bundle
  import opened BundleConservation
  import opened UsageScope
  import opened UsageMetrics

  /** The rows behind exported events. */
  function Rows(xs: seq<Exported>): seq<EventRow> {
    if xs == [] then [] else Rows(xs[..|xs| - 1]) + [xs[|xs| - 1].event]
  }

  lemma {:induction false} RowsConcat(a: seq<Exported>, b: seq<Exported>)
    ensures Rows(a + b) == Rows(a) + Rows(b)
    decreases |b|
  {
    if b == [] {
      assert a + b == a;
    } else {
      var front, last := b[..|b| - 1], b[|b| - 1];
      RowsConcat(a, front);
      assert (a + b)[..|a + b| - 1] == a + front;
    }
  }

  lemma {:induction false} RowsPermute(xs: seq<Exported>, ys: seq<Exported>)
    requires multiset(xs) == multiset(ys)
    ensures multiset(Rows(xs)) == multiset(Rows(ys))
    decreases |xs|
  {
    hide Rows;
    if xs == [] {
      assert |multiset(ys)| == 0;
    } else {
      var front, x := xs[..|xs| - 1], xs[|xs| - 1];
      assert xs == front + [x];
      assert x in multiset(ys);
      var i :| 0 <= i < |ys| && ys[i] == x;
      var left, right := ys[..i], ys[i + 1..];
      assert ys == left + [x] + right;
      SameOthers(front, x, left, right);
      RowsPermute(front, left + right);
      RowsConcat(front, [x]);
      RowsConcat(left + [x], right);
      RowsConcat(left, [x]);
      RowsConcat(left, right);
    }
  }

  lemma {:induction false} PlacedRows(plan: PlanRows, n: nat)
    requires n <= |plan.events|
    ensures Rows(Placed(plan)[..n]) == plan.events[..n]
  {
    if n > 0 {
      PlacedRows(plan, n - 1);
      assert Placed(plan)[..n][..n - 1] == Placed(plan)[..n - 1];
    }
  }

  // ------------------------------------------------------- listed and lost

  function Kept(xs: seq<Exported>, keys: seq<Option<string>>): seq<Exported> {
    if xs == [] then []
    else
      var front, last := Kept(xs[..|xs| - 1], keys), xs[|xs| - 1];
      if PlacedRun(last) in keys then front + [last] else front
  }

  function Lost(xs: seq<Exported>, keys: seq<Option<string>>): seq<Exported> {
    if xs == [] then []
    else
      var front, last := Lost(xs[..|xs| - 1], keys), xs[|xs| - 1];
      if PlacedRun(last) in keys then front else front + [last]
  }

  /** With no key repeated, the listing is a permutation of what the keys select. */
  lemma {:induction false} ListingIsKept(keys: seq<Option<string>>, xs: seq<Exported>)
    requires forall k :: multiset(keys)[k] <= 1
    ensures multiset(Listing(keys, xs, PlacedRun)) == multiset(Kept(xs, keys))
    decreases |xs|
  {
    hide Listing;
    if xs == [] {
      ListingNothing<Exported, Option<string>>(keys, PlacedRun);
    } else {
      var front, last := xs[..|xs| - 1], xs[|xs| - 1];
      ListingIsKept(keys, front);
      assert xs == front + [last];
      if PlacedRun(last) in keys {
        assert PlacedRun(last) in multiset(keys);
        ListingSnoc(keys, front, last, PlacedRun);
      } else {
        ListingSnocAbsent(keys, front, last, PlacedRun);
      }
    }
  }

  lemma {:induction false} KeptAndLost(xs: seq<Exported>, keys: seq<Option<string>>)
    ensures Tally(Rows(xs)) == Merge(Tally(Rows(Kept(xs, keys))), Tally(Rows(Lost(xs, keys))))
    decreases |xs|
  {
    hide Note, Merge;
    if xs == [] {
      MergeEmpty(EMPTY_SCOPE);
    } else {
      var front, last := xs[..|xs| - 1], xs[|xs| - 1];
      KeptAndLost(front, keys);
      var a, b := Tally(Rows(Kept(front, keys))), Tally(Rows(Lost(front, keys)));
      TallyNext(Rows(front), last.event);
      if PlacedRun(last) in keys {
        RowsSnoc(Kept(front, keys), last);
        MergeCommutes(a, b);
        NoteMerges(b, a, last.event);
        MergeCommutes(b, Note(a, last.event));
      } else {
        RowsSnoc(Lost(front, keys), last);
        NoteMerges(a, b, last.event);
      }
    }
  }

  lemma RowsSnoc(xs: seq<Exported>, x: Exported)
    ensures Tally(Rows(xs + [x])) == Note(Tally(Rows(xs)), x.event)
  {
    assert (xs + [x])[..|xs|] == xs;
    TallyNext(Rows(xs), x.event);
  }

  lemma {:induction false} LostRows(xs: seq<Exported>, keys: seq<Option<string>>, e: EventRow)
    ensures e in Rows(Lost(xs, keys)) <==> exists x <- xs :: x.event == e && PlacedRun(x) !in keys
    decreases |xs|
  {
    hide PlacedRun;
    if xs != [] {
      var front, last := xs[..|xs| - 1], xs[|xs| - 1];
      LostRows(front, keys, e);
      assert xs == front + [last];
      if PlacedRun(last) !in keys {
        assert (Lost(front, keys) + [last])[..|Lost(front, keys)|] == Lost(front, keys);
      }
    }
  }

  // ----------------------------------------------------------- one plan

  /** Every usage event that was assigned to a run was assigned to a listed one. */
  predicate UsageListed(plan: PlanRows) {
    forall x <- Placed(plan) :: Counted(x.event) && x.placed.runId.Some? ==> Listed(x.placed.runId.value, plan.runs)
  }

  lemma {:induction false} KeysAre(runs: seq<RunRow>, k: Option<string>)
    ensures k in Keys(runs) <==> k.Some? && Listed(k.value, runs)
    decreases |runs|
  {
    if runs != [] {
      KeysAre(runs[..|runs| - 1], k);
      assert runs == runs[..|runs| - 1] + [runs[|runs| - 1]];
    }
  }

  lemma NothingLostIff(plan: PlanRows)
    ensures CountedOnly(Rows(Lost(Placed(plan), Keys(plan.runs) + [None]))) == [] <==> UsageListed(plan)
  {
    hide Lost, Rows, Keys, Placed, CountedOnly;
    var keys := Keys(plan.runs) + [None];
    var lost := Rows(Lost(Placed(plan), keys));
    forall k ensures k in keys <==> k.None? || Listed(k.value, plan.runs) {
      KeysAre(plan.runs, k);
    }
    forall e ensures e in CountedOnly(lost) <==>
        Counted(e) && exists x <- Placed(plan) :: x.event == e && PlacedRun(x) !in keys
    {
      CountedMembers(lost, e);
      LostRows(Placed(plan), keys, e);
    }
    if CountedOnly(lost) != [] {
      assert CountedOnly(lost)[0] in CountedOnly(lost);
    }
  }

  lemma NothingCounted(events: seq<EventRow>)
    ensures CountedOnly(events) == [] <==> Tally(events).sessions == 0
    ensures CountedOnly(events) == [] ==> Tally(events) == EMPTY_SCOPE
    ensures 0 <= Tally(events).sessions
  {
    TallyMeans(events, "");
    SkippedCountNothing(events);
  }

  function Bundled(plan: PlanRows): Scope {
    Tally(Rows(RecordsOf(Report(plan)).telemetry))
  }

  lemma BundledIsKept(plan: PlanRows)
    requires DistinctRuns(plan.runs)
    ensures Bundled(plan) == Tally(Rows(Kept(Placed(plan), Keys(plan.runs) + [None])))
  {
    hide Kept, Keys, Placed, Tally, Rows, DistinctRuns;
    var keys := Keys(plan.runs) + [None];
    BundleIsListing(plan);
    forall k ensures multiset(keys)[k] <= 1 {
      KeyAtMostOnce(plan.runs, k);
    }
    ListingIsKept(keys, Placed(plan));
    RowsPermute(RecordsOf(Report(plan)).telemetry, Kept(Placed(plan), keys));
    TallyIgnoresOrder(Rows(RecordsOf(Report(plan)).telemetry), Rows(Kept(Placed(plan), keys)));
  }

  /** The plan's bundled events count no more sessions than its metrics, and everything alike exactly when no usage event is lost. */
  lemma PlanMeetsIff(plan: PlanRows)
    requires DistinctRuns(plan.runs)
    ensures Bundled(plan).sessions <= Tally(plan.events).sessions
    ensures Bundled(plan).sessions == Tally(plan.events).sessions <==> UsageListed(plan)
    ensures UsageListed(plan) ==> Bundled(plan) == Tally(plan.events)
  {
    hide Kept, Lost, Keys, Placed, Tally, Rows, Bundled, DistinctRuns, CountedOnly, UsageListed;
    var keys := Keys(plan.runs) + [None];
    BundledIsKept(plan);
    KeptAndLost(Placed(plan), keys);
    AllPlacedRows(plan);
    NothingLostIff(plan);
    NothingCounted(Rows(Lost(Placed(plan), keys)));
    TallyCovers(Rows(Kept(Placed(plan), keys)));
    MergeEmpty(Tally(Rows(Kept(Placed(plan), keys))));
  }

  lemma AllPlacedRows(plan: PlanRows)
    ensures Rows(Placed(plan)) == plan.events
  {
    PlacedRows(plan, |plan.events|);
    assert Placed(plan)[..|plan.events|] == Placed(plan) && plan.events[..|plan.events|] == plan.events;
  }

  lemma ConservedMeansListed(plan: PlanRows)
    requires TelemetryConserved(plan)
    ensures UsageListed(plan)
  {
    hide Placed, TelemetryConserved;
    TelemetryConservedIff(plan);
    forall x <- Placed(plan) | x.placed.runId.Some? ensures Listed(x.placed.runId.value, plan.runs) {
      OnceMeansListed(plan.runs, x.placed.runId.value);
    }
  }

  // ------------------------------------------------------- the whole export

  function RunEvents(reports: seq<PlanReport>): seq<Exported> {
    if reports == [] then []
    else RunEvents(reports[..|reports| - 1]) + AllTelemetry(reports[|reports| - 1].runs)
  }

  function UnassignedEvents(reports: seq<PlanReport>): seq<Exported> {
    if reports == [] then []
    else UnassignedEvents(reports[..|reports| - 1]) + reports[|reports| - 1].unassigned
  }

  /** The events the comparisons are built from: those of the runs, then the unassigned ones. */
  function ComparisonEvents(reports: seq<PlanReport>): seq<EventRow> {
    Rows(RunEvents(reports) + UnassignedEvents(reports))
  }

  /** The plans' combined metrics, added up. */
  function MetricsTotal(plans: seq<PlanRows>): Scope {
    if plans == [] then EMPTY_SCOPE
    else Merge(MetricsTotal(plans[..|plans| - 1]), Tally(plans[|plans| - 1].events))
  }

  function BundledTotal(plans: seq<PlanRows>): Scope {
    if plans == [] then EMPTY_SCOPE
    else Merge(BundledTotal(plans[..|plans| - 1]), Bundled(plans[|plans| - 1]))
  }

  lemma TallyOfBoth(a: seq<Exported>, b: seq<Exported>)
    ensures Tally(Rows(a + b)) == Merge(Tally(Rows(a)), Tally(Rows(b)))
  {
    RowsConcat(a, b);
    TallyConcat(Rows(a), Rows(b));
  }

  lemma MergeSwaps(a: Scope, b: Scope, c: Scope, d: Scope)
    ensures Merge(Merge(a, b), Merge(c, d)) == Merge(Merge(a, c), Merge(b, d))
  {
    hide Merge;
    MergeAssociates(a, b, Merge(c, d));
    MergeAssociates(b, c, d);
    MergeCommutes(b, c);
    MergeAssociates(c, b, d);
    MergeAssociates(a, c, Merge(b, d));
  }

  lemma ReportsNext(plans: seq<PlanRows>)
    requires plans != []
    ensures var front, last := Reports(plans[..|plans| - 1]), Report(plans[|plans| - 1]);
      && RunEvents(Reports(plans)) == RunEvents(front) + AllTelemetry(last.runs)
      && UnassignedEvents(Reports(plans)) == UnassignedEvents(front) + last.unassigned
  {
    hide Report;
    assert Reports(plans)[..|Reports(plans)| - 1] == Reports(plans[..|plans| - 1]);
  }

  lemma {:induction false} ComparisonIsBundled(plans: seq<PlanRows>)
    ensures Tally(ComparisonEvents(Reports(plans))) == BundledTotal(plans)
    decreases |plans|
  {
    hide Tally, Rows, Merge, Report, Reports, RunEvents, UnassignedEvents;
    if plans == [] {
      NothingCompared();
    } else {
      var front, last := plans[..|plans| - 1], Report(plans[|plans| - 1]);
      ComparisonIsBundled(front);
      ReportsNext(plans);
      var a, b := RunEvents(Reports(front)), UnassignedEvents(Reports(front));
      TallyOfBoth(a, b);
      TallyOfBoth(a + AllTelemetry(last.runs), b + last.unassigned);
      TallyOfBoth(a, AllTelemetry(last.runs));
      TallyOfBoth(b, last.unassigned);
      TallyOfBoth(AllTelemetry(last.runs), last.unassigned);
      MergeSwaps(Tally(Rows(a)), Tally(Rows(AllTelemetry(last.runs))), Tally(Rows(b)), Tally(Rows(last.unassigned)));
    }
  }

  lemma NothingCompared()
    ensures Tally(ComparisonEvents(Reports([]))) == EMPTY_SCOPE
  {
  }

  lemma {:induction false} TotalsMeet(plans: seq<PlanRows>)
    requires forall plan <- plans :: DistinctRuns(plan.runs)
    ensures BundledTotal(plans).sessions <= MetricsTotal(plans).sessions
    ensures BundledTotal(plans).sessions == MetricsTotal(plans).sessions <==> forall plan <- plans :: UsageListed(plan)
    ensures (forall plan <- plans :: UsageListed(plan)) ==> BundledTotal(plans) == MetricsTotal(plans)
    decreases |plans|
  {
    hide Bundled, Tally, UsageListed, DistinctRuns;
    if plans != [] {
      var front, last := plans[..|plans| - 1], plans[|plans| - 1];
      assert plans == front + [last];
      TotalsMeet(front);
      PlanMeetsIff(last);
    }
  }

  /**
   The comparison rows of an export merge to the plans' combined metrics if and
   only if every usage event that was assigned to a run was assigned to a listed
   one - in particular whenever the telemetry is conserved.
   */
  lemma ComparisonsMeetMetricsIff(plans: seq<PlanRows>, usage: map<Identity, Scope>, keys: seq<Identity>)
    requires forall plan <- plans :: DistinctRuns(plan.runs)
    requires IsUsageOf(usage, ComparisonEvents(Reports(plans)))
    requires Distinct(keys) && forall k :: k in keys <==> k in usage
    ensures MergeUsage(keys, usage) == MetricsTotal(plans) <==> forall plan <- plans :: UsageListed(plan)
    ensures (forall plan <- plans :: TelemetryConserved(plan)) ==> MergeUsage(keys, usage) == MetricsTotal(plans)
  {
    hide UsageListed, TelemetryConserved, DistinctRuns, IsUsageOf, ComparisonEvents, BundledTotal, MetricsTotal;
    GroupsAddBack(ComparisonEvents(Reports(plans)), usage, keys);
    ComparisonIsBundled(plans);
    TotalsMeet(plans);
    forall plan <- plans | TelemetryConserved(plan) ensures UsageListed(plan) {
      ConservedMeansListed(plan);
    }
  }
}
