/**
 The per-plan report and the bundle of flat record files made from it: which
 rows reach the bundle, how often, and in what order.
 */
module Bundle {
  import opened Options
  import opened Grouping
  import opened Telemetry
  import opened Correlation

  // A run with the rows that were found to belong to it.
  datatype EnrichedRun = EnrichedRun(
    run: RunRow, attempts: seq<AttemptRow>, telemetry: seq<Exported>,
    attemptCount: nat, retryCount: nat, telemetryCount: nat)

  datatype PlanRows = PlanRows(runs: seq<RunRow>, attempts: seq<AttemptRow>, events: seq<EventRow>)

  datatype PlanReport = PlanReport(runs: seq<EnrichedRun>, unassigned: seq<Exported>, telemetryTotal: nat)

  datatype Records = Records(runs: seq<RunRow>, attempts: seq<AttemptRow>, telemetry: seq<Exported>)

  datatype Totals = Totals(executionRuns: nat, executionAttempts: nat, telemetryEvents: nat)

  function Placed(plan: PlanRows): seq<Exported> {
    ExportEvents(plan.events, plan.runs, plan.attempts)
  }

  function Enriched(plan: PlanRows, run: RunRow): EnrichedRun {
    var attempts := Bucket(plan.attempts, RunOf, run.id);
    var telemetry := Bucket(Placed(plan), PlacedRun, Some(run.id));
    EnrichedRun(run, attempts, telemetry, |attempts|, if |attempts| == 0 then 0 else |attempts| - 1, |telemetry|)
  }

  function Report(plan: PlanRows): PlanReport {
    PlanReport(
      seq(|plan.runs|, i requires 0 <= i < |plan.runs| => Enriched(plan, plan.runs[i])),
      Bucket(Placed(plan), PlacedRun, None),
      |plan.events|)
  }

  method ExportPlan(plan: PlanRows) returns (report: PlanReport)
    ensures report == Report(plan)
  {
    var telemetryByRun, unassigned := CorrelateTelemetry(plan.events, plan.runs, plan.attempts);
    var attemptsByRun := GroupBy(plan.attempts, RunOf);
    var enriched := [];
    for i := 0 to |plan.runs|
      invariant enriched == Report(plan).runs[..i]
    {
      var run := plan.runs[i];
      var attempts, telemetry := Get(attemptsByRun, run.id), Get(telemetryByRun, run.id);
      var retries := if |attempts| == 0 then 0 else |attempts| - 1;
      assert Report(plan).runs[i] == EnrichedRun(run, attempts, telemetry, |attempts|, retries, |telemetry|);
      enriched := enriched + [EnrichedRun(run, attempts, telemetry, |attempts|, retries, |telemetry|)];
    }
    report := PlanReport(enriched, unassigned, |plan.events|);
  }

  /** The indices of the attempts of a run. */
  function AttemptsAt(plan: PlanRows, runId: string): set<int> {
    set j | 0 <= j < |plan.attempts| && plan.attempts[j].runId == runId
  }

  /** The indices of the events that belong to a run. */
  function EventsAt(plan: PlanRows, runId: string): set<int> {
    set j | 0 <= j < |plan.events| && Place(plan.events[j], RunIds(plan.runs), plan.attempts).runId == Some(runId)
  }

  /** The three counts of a run on the tables: its attempts, all of them but the first, and its events. */
  lemma RunCounts(plan: PlanRows, i: nat)
    requires i < |plan.runs|
    ensures var r := Report(plan).runs[i];
      && r.run == plan.runs[i]
      && r.attemptCount == |AttemptsAt(plan, r.run.id)|
      && (r.attemptCount == 0 ==> r.retryCount == 0)
      && (r.attemptCount > 0 ==> r.retryCount == r.attemptCount - 1)
      && r.telemetryCount == |EventsAt(plan, r.run.id)|
  {
    hide Bucket, Place;
    var id := plan.runs[i].id;
    BucketSize(plan.attempts, RunOf, id);
    BucketSize(Placed(plan), PlacedRun, Some(id));
    assert RowsAt(plan.attempts, RunOf, id) == AttemptsAt(plan, id);
    assert RowsAt(Placed(plan), PlacedRun, Some(id)) == EventsAt(plan, id);
  }

  // ------------------------------------------------------------ the records

  function AllAttempts(runs: seq<EnrichedRun>): seq<AttemptRow> {
    if runs == [] then [] else AllAttempts(runs[..|runs| - 1]) + runs[|runs| - 1].attempts
  }

  function AllTelemetry(runs: seq<EnrichedRun>): seq<Exported> {
    if runs == [] then [] else AllTelemetry(runs[..|runs| - 1]) + runs[|runs| - 1].telemetry
  }

  function AllRuns(runs: seq<EnrichedRun>): seq<RunRow> {
    seq(|runs|, i requires 0 <= i < |runs| => runs[i].run)
  }

  function RecordsOf(report: PlanReport): Records {
    Records(AllRuns(report.runs), AllAttempts(report.runs), AllTelemetry(report.runs) + report.unassigned)
  }

  function Plus(a: Records, b: Records): Records {
    Records(a.runs + b.runs, a.attempts + b.attempts, a.telemetry + b.telemetry)
  }

  function BundleOf(reports: seq<PlanReport>): Records {
    if reports == [] then Records([], [], [])
    else Plus(BundleOf(reports[..|reports| - 1]), RecordsOf(reports[|reports| - 1]))
  }

  lemma RunsNext(runs: seq<EnrichedRun>, j: nat)
    requires j < |runs|
    ensures AllRuns(runs[..j + 1]) == AllRuns(runs[..j]) + [runs[j].run]
    ensures AllAttempts(runs[..j + 1]) == AllAttempts(runs[..j]) + runs[j].attempts
    ensures AllTelemetry(runs[..j + 1]) == AllTelemetry(runs[..j]) + runs[j].telemetry
  {
    assert runs[..j + 1][..j] == runs[..j];
  }

  lemma BundleNext(reports: seq<PlanReport>, i: nat)
    requires i < |reports|
    ensures BundleOf(reports[..i + 1]) == Plus(BundleOf(reports[..i]), RecordsOf(reports[i]))
  {
    assert reports[..i + 1][..i] == reports[..i];
  }

  lemma NothingBundled()
    ensures AllRuns([]) == [] && AllAttempts([]) == [] && AllTelemetry([]) == []
    ensures BundleOf([]) == Records([], [], [])
  {
  }

  method BundleRecords(reports: seq<PlanReport>) returns (records: Records)
    ensures records == BundleOf(reports)
  {
    hide BundleOf, AllRuns, AllAttempts, AllTelemetry;
    NothingBundled();
    records := Records([], [], []);
    for i := 0 to |reports|
      invariant records == BundleOf(reports[..i])
    {
      var report := reports[i];
      ghost var before := records;
      for j := 0 to |report.runs|
        invariant records.runs == before.runs + AllRuns(report.runs[..j])
        invariant records.attempts == before.attempts + AllAttempts(report.runs[..j])
        invariant records.telemetry == before.telemetry + AllTelemetry(report.runs[..j])
      {
        var run := report.runs[j];
        RunsNext(report.runs, j);
        records := Records(
          records.runs + [run.run], records.attempts + run.attempts, records.telemetry + run.telemetry);
      }
      assert report.runs[..|report.runs|] == report.runs;
      records := records.(telemetry := records.telemetry + report.unassigned);
      assert records == Plus(before, RecordsOf(report));
      BundleNext(reports, i);
    }
    assert reports[..|reports|] == reports;
  }
}
