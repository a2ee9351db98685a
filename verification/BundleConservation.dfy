/** Nothing lost, nothing repeated: when the bundle holds exactly the rows of its plans. */
module BundleConservation {
  import opened Options
  import opened Grouping
  import opened Telemetry
  import opened Correlation
  import opened Bundle

  function Ids(runs: seq<RunRow>): seq<string> {
    if runs == [] then [] else Ids(runs[..|runs| - 1]) + [runs[|runs| - 1].id]
  }

  function Keys(runs: seq<RunRow>): seq<Option<string>> {
    if runs == [] then [] else Keys(runs[..|runs| - 1]) + [Some(runs[|runs| - 1].id)]
  }

  // ------------------------------------------------- the bundle is a listing

  lemma NoRuns(plan: PlanRows)
    ensures AllTelemetry([]) == Listing(Keys([]), Placed(plan), PlacedRun)
    ensures AllAttempts([]) == Listing(Ids([]), plan.attempts, RunOf)
  {
  }

  lemma KeysNext(runs: seq<RunRow>, n: nat)
    requires n < |runs|
    ensures Keys(runs[..n + 1]) == Keys(runs[..n]) + [Some(runs[n].id)]
    ensures Ids(runs[..n + 1]) == Ids(runs[..n]) + [runs[n].id]
  {
    assert runs[..n + 1][..n] == runs[..n];
  }

  lemma {:induction false} PrefixListings(plan: PlanRows, n: nat)
    requires n <= |plan.runs|
    ensures AllTelemetry(Report(plan).runs[..n]) == Listing(Keys(plan.runs[..n]), Placed(plan), PlacedRun)
    ensures AllAttempts(Report(plan).runs[..n]) == Listing(Ids(plan.runs[..n]), plan.attempts, RunOf)
  {
    hide Bucket, Listing, AllTelemetry, AllAttempts, Keys, Ids;
    if n == 0 {
      NoRuns(plan);
    } else {
      PrefixListings(plan, n - 1);
      var id := plan.runs[n - 1].id;
      RunsNext(Report(plan).runs, n - 1);
      KeysNext(plan.runs, n - 1);
      ListingConcat(Keys(plan.runs[..n - 1]), [Some(id)], Placed(plan), PlacedRun);
      ListingConcat(Ids(plan.runs[..n - 1]), [id], plan.attempts, RunOf);
      ListingOne(Some(id), Placed(plan), PlacedRun);
      ListingOne(id, plan.attempts, RunOf);
    }
  }

  lemma BundleIsListing(plan: PlanRows)
    ensures RecordsOf(Report(plan)).telemetry == Listing(Keys(plan.runs) + [None], Placed(plan), PlacedRun)
    ensures RecordsOf(Report(plan)).attempts == Listing(Ids(plan.runs), plan.attempts, RunOf)
    ensures RecordsOf(Report(plan)).runs == plan.runs
  {
    PrefixListings(plan, |plan.runs|);
    assert plan.runs[..|plan.runs|] == plan.runs;
    assert Report(plan).runs[..|plan.runs|] == Report(plan).runs;
    ListingConcat(Keys(plan.runs), [None], Placed(plan), PlacedRun);
    assert Listing([None], Placed(plan), PlacedRun) == Bucket(Placed(plan), PlacedRun, None);
  }

  lemma {:induction false} KeyCounts(runs: seq<RunRow>, id: string)
    ensures multiset(Keys(runs) + [None])[Some(id)] == multiset(Ids(runs))[id]
    ensures multiset(Keys(runs) + [None])[None] == 1
    decreases |runs|
  {
    if runs != [] {
      KeyCounts(runs[..|runs| - 1], id);
    }
  }

  // ----------------------------------------------------------- exactly when

  predicate OnceListed(id: string, runs: seq<RunRow>) {
    multiset(Ids(runs))[id] == 1
  }

  predicate TelemetryConserved(plan: PlanRows) {
    multiset(RecordsOf(Report(plan)).telemetry) == multiset(Placed(plan))
  }

  /** The telemetry file holds each event once exactly when each assigned event's run is listed once. */
  lemma TelemetryConservedIff(plan: PlanRows)
    ensures TelemetryConserved(plan) <==>
      forall x <- Placed(plan) :: x.placed.runId.Some? ==> OnceListed(x.placed.runId.value, plan.runs)
  {
    var keys := Keys(plan.runs) + [None];
    BundleIsListing(plan);
    ListingConservesIff(keys, Placed(plan), PlacedRun);
    forall x <- Placed(plan)
      ensures multiset(keys)[PlacedRun(x)] == 1 <==> (x.placed.runId.Some? ==> OnceListed(x.placed.runId.value, plan.runs)) {
      KeyCounts(plan.runs, if x.placed.runId.Some? then x.placed.runId.value else "");
    }
  }

  /** The same for the attempts file. */
  lemma AttemptsConservedIff(plan: PlanRows)
    ensures multiset(RecordsOf(Report(plan)).attempts) == multiset(plan.attempts)
       <==> forall a <- plan.attempts :: OnceListed(a.runId, plan.runs)
  {
    BundleIsListing(plan);
    ListingConservesIff(Ids(plan.runs), plan.attempts, RunOf);
    assert forall a <- plan.attempts :: RunOf(a) == a.runId;
  }

  // ------------------------------------------------ tables that always conserve

  lemma {:induction false} IdsAre(runs: seq<RunRow>)
    ensures |Ids(runs)| == |runs|
    ensures forall i :: 0 <= i < |runs| ==> Ids(runs)[i] == runs[i].id
    decreases |runs|
  {
    if runs != [] {
      IdsAre(runs[..|runs| - 1]);
    }
  }

  predicate DistinctRuns(runs: seq<RunRow>) {
    forall i, j :: 0 <= i < j < |runs| ==> runs[i].id != runs[j].id
  }

  lemma ListedMeansOnce(runs: seq<RunRow>, id: string)
    requires DistinctRuns(runs) && Listed(id, runs)
    ensures OnceListed(id, runs)
  {
    IdsAre(runs);
    var i :| 0 <= i < |runs| && runs[i].id == id;
    assert Ids(runs)[i] == id;
    DistinctOnce(Ids(runs), id);
  }

  lemma CountTwo(ids: seq<string>, i: nat, j: nat)
    requires i < j < |ids|
    ensures ids[i] == ids[j] ==> multiset(ids)[ids[i]] >= 2
  {
    assert ids == ids[..i] + [ids[i]] + ids[i + 1..j] + [ids[j]] + ids[j + 1..];
  }

  lemma OnceMeansListed(runs: seq<RunRow>, id: string)
    requires OnceListed(id, runs)
    ensures Listed(id, runs)
    ensures forall i, j :: 0 <= i < j < |runs| ==> runs[i].id != id || runs[j].id != id
  {
    IdsAre(runs);
    var ids := Ids(runs);
    assert id in multiset(ids);
    var k :| 0 <= k < |ids| && ids[k] == id;
    assert runs[k].id == id;
    forall i, j | 0 <= i < j < |runs| ensures runs[i].id != id || runs[j].id != id {
      CountTwo(ids, i, j);
    }
  }

  predicate AttemptsListed(attempts: seq<AttemptRow>, runs: seq<RunRow>) {
    forall a <- attempts :: Listed(a.runId, runs)
  }

  lemma GoodTablesConserve(plan: PlanRows)
    requires DistinctRuns(plan.runs) && AttemptsListed(plan.attempts, plan.runs)
    ensures TelemetryConserved(plan)
  {
    hide AllTelemetry, AllAttempts;
    forall x <- Placed(plan) | x.placed.runId.Some? ensures OnceListed(x.placed.runId.value, plan.runs) {
      PlacementIsEvidenced(x.event, plan.runs, plan.attempts);
      assert Evidenced(x.event, plan.runs, plan.attempts, x.placed);
      ListedMeansOnce(plan.runs, x.placed.runId.value);
    }
    TelemetryConservedIff(plan);
  }

  lemma OneEvent(plan: PlanRows, e: EventRow, run: string)
    requires plan.events == [e]
    requires Place(e, RunIds(plan.runs), plan.attempts).runId == Some(run)
    requires TelemetryConserved(plan)
    ensures OnceListed(run, plan.runs)
  {
    TelemetryConservedIff(plan);
    assert Placed(plan)[0] in Placed(plan);
  }

  ghost predicate AlwaysConserves(runs: seq<RunRow>, attempts: seq<AttemptRow>) {
    forall events :: TelemetryConserved(PlanRows(runs, attempts, events))
  }

  lemma AlwaysMeansDistinct(runs: seq<RunRow>, attempts: seq<AttemptRow>)
    requires AlwaysConserves(runs, attempts)
    ensures DistinctRuns(runs)
  {
    forall i, j | 0 <= i < j < |runs| ensures runs[i].id != runs[j].id {
      var e := EventRow("e", Some(runs[i].id), None, None, None, 0, None, None, None);
      var plan := PlanRows(runs, attempts, [e]);
      assert TelemetryConserved(plan);
      assert runs[i] in runs;
      OneEvent(plan, e, runs[i].id);
      OnceMeansListed(runs, runs[i].id);
    }
  }

  lemma AlwaysMeansListed(runs: seq<RunRow>, attempts: seq<AttemptRow>)
    requires UniqueIds(attempts) && AlwaysConserves(runs, attempts)
    ensures AttemptsListed(attempts, runs)
  {
    forall a <- attempts ensures Listed(a.runId, runs) {
      var e := EventRow("e", None, Some(a.id), None, None, 0, None, None, None);
      var plan := PlanRows(runs, attempts, [e]);
      assert TelemetryConserved(plan);
      EvidenceDecides(e, runs, attempts, Placement(Some(a.runId), ByAttempt));
      assert Backs(e, a);
      OneEvent(plan, e, a.runId);
      OnceMeansListed(runs, a.runId);
    }
  }

  /**
   Given distinct attempt ids, no set of events can be lost or repeated exactly
   when the run ids are distinct and every attempt points at a listed run.
   */
  lemma ConservesIff(runs: seq<RunRow>, attempts: seq<AttemptRow>)
    requires UniqueIds(attempts)
    ensures AlwaysConserves(runs, attempts) <==> DistinctRuns(runs) && AttemptsListed(attempts, runs)
  {
    if AlwaysConserves(runs, attempts) {
      AlwaysMeansDistinct(runs, attempts);
      AlwaysMeansListed(runs, attempts);
    }
    if DistinctRuns(runs) && AttemptsListed(attempts, runs) {
      forall events ensures TelemetryConserved(PlanRows(runs, attempts, events)) {
        GoodTablesConserve(PlanRows(runs, attempts, events));
      }
    }
  }

  /** Reading the telemetry file back by run gives the run's own list, in the order the events were recorded. */
  lemma FileRegroups(plan: PlanRows, run: RunRow)
    requires OnceListed(run.id, plan.runs)
    ensures Bucket(RecordsOf(Report(plan)).telemetry, PlacedRun, Some(run.id)) == Enriched(plan, run).telemetry
    ensures Bucket(RecordsOf(Report(plan)).attempts, RunOf, run.id) == Enriched(plan, run).attempts
  {
    BundleIsListing(plan);
    KeyCounts(plan.runs, run.id);
    Regroups(Keys(plan.runs) + [None], Placed(plan), PlacedRun, Some(run.id));
    Regroups(Ids(plan.runs), plan.attempts, RunOf, run.id);
  }

  // ------------------------------------------------------------ record counts

  lemma {:induction false} AtMostOnce(keys: seq<string>, k: string)
    requires Distinct(keys)
    ensures multiset(keys)[k] <= 1
  {
    if keys != [] {
      assert keys == [keys[0]] + keys[1..];
      AtMostOnce(keys[1..], k);
      assert k == keys[0] ==> k !in keys[1..];
    }
  }

  lemma KeyAtMostOnce(runs: seq<RunRow>, k: Option<string>)
    requires DistinctRuns(runs)
    ensures multiset(Keys(runs) + [None])[k] <= 1
  {
    IdsAre(runs);
    var id := if k.Some? then k.value else "";
    KeyCounts(runs, id);
    AtMostOnce(Ids(runs), id);
  }

  lemma NothingAdded(plan: PlanRows)
    requires DistinctRuns(plan.runs)
    ensures multiset(RecordsOf(Report(plan)).telemetry) <= multiset(Placed(plan))
  {
    var keys, rows := Keys(plan.runs) + [None], Placed(plan);
    BundleIsListing(plan);
    forall x: Exported ensures multiset(Listing(keys, rows, PlacedRun))[x] <= multiset(rows)[x] {
      KeyAtMostOnce(plan.runs, PlacedRun(x));
      ListedAtMost(keys, rows, PlacedRun, x);
    }
  }

  lemma SameSize<T>(a: multiset<T>, b: multiset<T>)
    requires a <= b
    ensures |a| == |b| <==> a == b
  {
    assert b == a + (b - a);
    assert |b - a| == 0 ==> b - a == multiset{};
  }

  /** With distinct run ids the telemetry file never has more records than the report's total, and as many only if no event is missing. */
  lemma CountShowsLoss(plan: PlanRows)
    requires DistinctRuns(plan.runs)
    ensures |RecordsOf(Report(plan)).telemetry| <= Report(plan).telemetryTotal
    ensures |RecordsOf(Report(plan)).telemetry| == Report(plan).telemetryTotal <==> TelemetryConserved(plan)
  {
    NothingAdded(plan);
    SameSize(multiset(RecordsOf(Report(plan)).telemetry), multiset(Placed(plan)));
    var lost := multiset(Placed(plan)) - multiset(RecordsOf(Report(plan)).telemetry);
    assert multiset(Placed(plan)) == multiset(RecordsOf(Report(plan)).telemetry) + lost;
  }

  // ------------------------------------------------------- the whole export

  function Reports(plans: seq<PlanRows>): seq<PlanReport> {
    if plans == [] then [] else Reports(plans[..|plans| - 1]) + [Report(plans[|plans| - 1])]
  }

  function AllPlaced(plans: seq<PlanRows>): seq<Exported> {
    if plans == [] then [] else AllPlaced(plans[..|plans| - 1]) + Placed(plans[|plans| - 1])
  }

  /** The bundle of a whole export is, plan after plan, a permutation of the plans' events. */
  lemma {:induction false} BundleConserves(plans: seq<PlanRows>)
    requires forall plan <- plans :: TelemetryConserved(plan)
    ensures multiset(BundleOf(Reports(plans)).telemetry) == multiset(AllPlaced(plans))
    decreases |plans|
  {
    if plans != [] {
      BundleConserves(plans[..|plans| - 1]);
      assert TelemetryConserved(plans[|plans| - 1]);
    }
  }

  function RunAttempts(runs: seq<EnrichedRun>): nat {
    if runs == [] then 0 else RunAttempts(runs[..|runs| - 1]) + |runs[|runs| - 1].attempts|
  }

  /** The report's `totals`, summed plan by plan. */
  function TotalsOf(reports: seq<PlanReport>): Totals {
    if reports == [] then Totals(0, 0, 0)
    else
      var before, last := TotalsOf(reports[..|reports| - 1]), reports[|reports| - 1];
      Totals(
        before.executionRuns + |last.runs|,
        before.executionAttempts + RunAttempts(last.runs),
        before.telemetryEvents + last.telemetryTotal)
  }

  lemma {:induction false} AttemptsCounted(runs: seq<EnrichedRun>)
    ensures RunAttempts(runs) == |AllAttempts(runs)|
    decreases |runs|
  {
    if runs != [] {
      AttemptsCounted(runs[..|runs| - 1]);
    }
  }

  lemma NoPlans()
    ensures Reports([]) == [] && BundleOf([]) == Records([], [], []) && TotalsOf([]) == Totals(0, 0, 0)
  {
  }

  lemma TotalsNext(plans: seq<PlanRows>)
    requires plans != []
    ensures var front, last := plans[..|plans| - 1], Report(plans[|plans| - 1]);
      && BundleOf(Reports(plans)) == Plus(BundleOf(Reports(front)), RecordsOf(last))
      && TotalsOf(Reports(plans)) == Totals(
           TotalsOf(Reports(front)).executionRuns + |last.runs|,
           TotalsOf(Reports(front)).executionAttempts + RunAttempts(last.runs),
           TotalsOf(Reports(front)).telemetryEvents + last.telemetryTotal)
  {
    hide Report, RecordsOf, RunAttempts;
    assert Reports(plans)[..|Reports(plans)| - 1] == Reports(plans[..|plans| - 1]);
  }

  /**
   The runs and attempts files always have as many records as the totals say;
   the telemetry file has as many exactly when every plan's events are conserved.
   */
  lemma {:induction false} TotalsMatchIff(plans: seq<PlanRows>)
    requires forall plan <- plans :: DistinctRuns(plan.runs)
    ensures |BundleOf(Reports(plans)).runs| == TotalsOf(Reports(plans)).executionRuns
    ensures |BundleOf(Reports(plans)).attempts| == TotalsOf(Reports(plans)).executionAttempts
    ensures |BundleOf(Reports(plans)).telemetry| <= TotalsOf(Reports(plans)).telemetryEvents
    ensures |BundleOf(Reports(plans)).telemetry| == TotalsOf(Reports(plans)).telemetryEvents
       <==> forall plan <- plans :: TelemetryConserved(plan)
    decreases |plans|
  {
    hide Report, RecordsOf, TelemetryConserved, DistinctRuns, BundleOf, TotalsOf, Reports, RunAttempts;
    if plans == [] {
      NoPlans();
    } else {
      var front, last := plans[..|plans| - 1], plans[|plans| - 1];
      TotalsMatchIff(front);
      PlanCounts(last);
      TotalsNext(plans);
      assert plans == front + [last];
    }
  }

  lemma PlanCounts(plan: PlanRows)
    requires DistinctRuns(plan.runs)
    ensures |RecordsOf(Report(plan)).runs| == |Report(plan).runs|
    ensures |RecordsOf(Report(plan)).attempts| == RunAttempts(Report(plan).runs)
    ensures |RecordsOf(Report(plan)).telemetry| <= Report(plan).telemetryTotal
    ensures |RecordsOf(Report(plan)).telemetry| == Report(plan).telemetryTotal <==> TelemetryConserved(plan)
  {
    CountShowsLoss(plan);
    AttemptsCounted(Report(plan).runs);
  }
}
