/**
 The exporter's correlation of telemetry with execution runs, the per-plan
 report, and the bundle made from it.
 */
module Correlation {
  import opened Options
  import opened Grouping
  import opened Telemetry

  datatype RunRow = RunRow(id: string, status: string)

  datatype AttemptRow = AttemptRow(id: string, runId: string, goalId: Option<string>, taskId: string, number: int)

  datatype Method = ByRun | ByAttempt | UniqueLegacy | AmbiguousLegacy | Unassigned

  datatype Placement = Placement(runId: Option<string>, how: Method)

  // An event as exported: the row with the correlation recorded beside it.
  datatype Exported = Exported(event: EventRow, placed: Placement)

  datatype LegacyKey = LegacyKey(goalId: Option<string>, taskId: string, number: int)

  function RunIds(runs: seq<RunRow>): set<string> {
    set run | run in runs :: run.id
  }

  /** `{attempt.id: attempt.run_id}`: a later row with the same id wins. */
  function AttemptToRun(attempts: seq<AttemptRow>): map<string, string> {
    if attempts == [] then map[]
    else
      var last := attempts[|attempts| - 1];
      AttemptToRun(attempts[..|attempts| - 1])[last.id := last.runId]
  }

  function KeyOf(a: AttemptRow): LegacyKey {
    LegacyKey(a.goalId, a.taskId, a.number)
  }

  function Candidates(attempts: seq<AttemptRow>, key: LegacyKey): set<string> {
    set a | a in attempts && KeyOf(a) == key :: a.runId
  }

  lemma SingletonHas(s: set<string>)
    requires |s| == 1
    ensures exists x :: x in s && forall y <- s :: y == x
  {
    var x :| x in s;
    assert |s - {x}| == 0;
    assert forall y <- s :: y == x || y in s - {x};
  }

  function Only(s: set<string>): string
    requires |s| == 1
  {
    SingletonHas(s);
    var x :| x in s && forall y <- s :: y == x;
    x
  }

  /** Where one event goes, and by which rule. */
  function Place(e: EventRow, runIds: set<string>, attempts: seq<AttemptRow>): Placement {
    if e.runId.Some? && e.runId.value in runIds then Placement(e.runId, ByRun)
    else if e.attemptId.Some? then
      var runs := AttemptToRun(attempts);
      if e.attemptId.value in runs then Placement(Some(runs[e.attemptId.value]), ByAttempt)
      else Placement(None, Unassigned)
    else if e.taskId.Some? && 0 < e.attempt then
      var candidates := Candidates(attempts, LegacyKey(e.goalId, e.taskId.value, e.attempt));
      if |candidates| == 1 then Placement(Some(Only(candidates)), UniqueLegacy)
      else if |candidates| > 1 then Placement(None, AmbiguousLegacy)
      else Placement(None, Unassigned)
    else Placement(None, Unassigned)
  }

  function ExportEvents(events: seq<EventRow>, runs: seq<RunRow>, attempts: seq<AttemptRow>): (all: seq<Exported>)
    ensures |all| == |events|
    ensures forall i :: 0 <= i < |all| ==> all[i].event == events[i]
  {
    seq(|events|, i requires 0 <= i < |events| =>
      Exported(events[i], Place(events[i], RunIds(runs), attempts)))
  }

  function PlacedRun(x: Exported): Option<string> { x.placed.runId }

  function RunOf(a: AttemptRow): string { a.runId }

  // ----------------------------------------------- what a placement rests on

  predicate UniqueIds(attempts: seq<AttemptRow>) {
    forall a <- attempts, b <- attempts :: a.id == b.id ==> a == b
  }

  predicate Listed(runId: string, runs: seq<RunRow>) {
    exists run <- runs :: run.id == runId
  }

  lemma {:induction false} IndexedAttempt(attempts: seq<AttemptRow>, id: string)
    ensures id in AttemptToRun(attempts) <==> exists a <- attempts :: a.id == id
    ensures id in AttemptToRun(attempts)
        ==> exists a <- attempts :: a.id == id && a.runId == AttemptToRun(attempts)[id]
    decreases |attempts|
  {
    if attempts != [] {
      var front, last := attempts[..|attempts| - 1], attempts[|attempts| - 1];
      IndexedAttempt(front, id);
      assert attempts == front + [last];
    }
  }

  /** Of several attempts with one id, the last one read gives the run. */
  lemma {:induction false} LastAttemptWins(attempts: seq<AttemptRow>, i: nat)
    requires i < |attempts| && forall j :: i < j < |attempts| ==> attempts[j].id != attempts[i].id
    ensures attempts[i].id in AttemptToRun(attempts) && AttemptToRun(attempts)[attempts[i].id] == attempts[i].runId
    decreases |attempts|
  {
    if i < |attempts| - 1 {
      LastAttemptWins(attempts[..|attempts| - 1], i);
    }
  }

  predicate Matches(e: EventRow, a: AttemptRow) {
    e.goalId == a.goalId && e.taskId == Some(a.taskId) && e.attempt == a.number
  }

  /** The attempt is the one the event names or, failing a name, one with its goal, task and number. */
  predicate Backs(e: EventRow, a: AttemptRow) {
    if e.attemptId.Some? then a.id == e.attemptId.value else 0 < e.attempt && Matches(e, a)
  }

  /** What each rule claims about the tables. */
  predicate Evidenced(e: EventRow, runs: seq<RunRow>, attempts: seq<AttemptRow>, p: Placement) {
    if e.runId.Some? && Listed(e.runId.value, runs) then p == Placement(e.runId, ByRun)
    else
      match p.how
      case ByRun => false
      case ByAttempt => e.attemptId.Some? && exists a <- attempts :: Backs(e, a) && p.runId == Some(a.runId)
      case UniqueLegacy =>
        && e.attemptId.None?
        && (exists a <- attempts :: Backs(e, a))
        && (forall a <- attempts :: Backs(e, a) ==> p.runId == Some(a.runId))
      case AmbiguousLegacy =>
        && e.attemptId.None? && p.runId.None?
        && (exists a <- attempts, b <- attempts :: Backs(e, a) && Backs(e, b) && a.runId != b.runId)
      case Unassigned => p.runId.None? && (forall a <- attempts :: !Backs(e, a))
  }

  lemma TwoMembers(s: set<string>)
    requires |s| > 1
    ensures exists x <- s, y <- s :: x != y
  {
    var x :| x in s;
    assert |s - {x}| > 0;
    var y :| y in s - {x};
  }

  lemma LegacyEvidence(e: EventRow, attempts: seq<AttemptRow>, candidates: set<string>)
    requires e.taskId.Some?
    requires candidates == Candidates(attempts, LegacyKey(e.goalId, e.taskId.value, e.attempt))
    ensures forall a <- attempts :: Matches(e, a) ==> a.runId in candidates
    ensures forall r <- candidates :: exists a <- attempts :: Matches(e, a) && a.runId == r
  {
    assert forall a <- attempts :: Matches(e, a) <==> KeyOf(a) == LegacyKey(e.goalId, e.taskId.value, e.attempt);
  }

  /** Every placement is backed by the rows, and the rule recorded beside it is the one that applied. */
  lemma PlacementIsEvidenced(e: EventRow, runs: seq<RunRow>, attempts: seq<AttemptRow>)
    ensures Evidenced(e, runs, attempts, Place(e, RunIds(runs), attempts))
  {
    if e.runId.Some? && e.runId.value in RunIds(runs) {
    } else if e.attemptId.Some? {
      IndexedAttempt(attempts, e.attemptId.value);
    } else if e.taskId.Some? && 0 < e.attempt {
      var candidates := Candidates(attempts, LegacyKey(e.goalId, e.taskId.value, e.attempt));
      LegacyEvidence(e, attempts, candidates);
      if |candidates| == 1 {
        SingletonHas(candidates);
        assert Only(candidates) in candidates;
      } else if |candidates| > 1 {
        TwoMembers(candidates);
      } else {
        assert candidates == {};
      }
    }
  }

  lemma TwoPlacements(e: EventRow, runs: seq<RunRow>, attempts: seq<AttemptRow>, p: Placement, q: Placement)
    requires UniqueIds(attempts)
    requires Evidenced(e, runs, attempts, p) && Evidenced(e, runs, attempts, q)
    ensures p == q
  {
  }

  /** With distinct attempt ids the evidence leaves no choice. */
  lemma EvidenceDecides(e: EventRow, runs: seq<RunRow>, attempts: seq<AttemptRow>, p: Placement)
    requires UniqueIds(attempts)
    ensures p == Place(e, RunIds(runs), attempts) <==> Evidenced(e, runs, attempts, p)
  {
    PlacementIsEvidenced(e, runs, attempts);
    if Evidenced(e, runs, attempts, p) {
      TwoPlacements(e, runs, attempts, p, Place(e, RunIds(runs), attempts));
    }
  }

  // --------------------------------------------------- order does not matter

  lemma SameIndex(attempts: seq<AttemptRow>, shuffled: seq<AttemptRow>)
    requires UniqueIds(attempts) && multiset(attempts) == multiset(shuffled)
    ensures AttemptToRun(attempts) == AttemptToRun(shuffled)
  {
    assert forall a :: a in attempts <==> a in multiset(attempts);
    assert forall a :: a in shuffled <==> a in multiset(shuffled);
    forall id ensures id in AttemptToRun(attempts) <==> id in AttemptToRun(shuffled) {
      IndexedAttempt(attempts, id);
      IndexedAttempt(shuffled, id);
    }
    forall id | id in AttemptToRun(attempts) && id in AttemptToRun(shuffled)
      ensures AttemptToRun(attempts)[id] == AttemptToRun(shuffled)[id] {
      IndexedAttempt(attempts, id);
      IndexedAttempt(shuffled, id);
    }
  }

  /** Where an event goes depends on which attempts there are, not on the order they are read in. */
  lemma PlacementIgnoresOrder(e: EventRow, runIds: set<string>, attempts: seq<AttemptRow>, shuffled: seq<AttemptRow>)
    requires UniqueIds(attempts) && multiset(attempts) == multiset(shuffled)
    ensures Place(e, runIds, attempts) == Place(e, runIds, shuffled)
  {
    SameIndex(attempts, shuffled);
    assert forall a :: a in attempts <==> a in multiset(attempts);
    assert forall a :: a in shuffled <==> a in multiset(shuffled);
    if e.taskId.Some? {
      var key := LegacyKey(e.goalId, e.taskId.value, e.attempt);
      assert Candidates(attempts, key) == Candidates(shuffled, key);
    }
  }

  // ----------------------------------------------------------- the loops

  function Known(fallback: map<LegacyKey, set<string>>, key: LegacyKey): set<string> {
    if key in fallback then fallback[key] else {}
  }

  /** `fallback[key].add(run)` on a dictionary of sets. */
  function AddRun(fallback: map<LegacyKey, set<string>>, key: LegacyKey, run: string): (r: map<LegacyKey, set<string>>)
    ensures forall k :: Known(r, k) == if k == key then Known(fallback, k) + {run} else Known(fallback, k)
  {
    fallback[key := Known(fallback, key) + {run}]
  }

  lemma CandidatesSnoc(attempts: seq<AttemptRow>, a: AttemptRow, key: LegacyKey)
    ensures Candidates(attempts + [a], key)
         == if key == KeyOf(a) then Candidates(attempts, key) + {a.runId} else Candidates(attempts, key)
  {
    assert forall b :: b in attempts + [a] <==> b in attempts || b == a;
  }

  method IndexAttempts(attempts: seq<AttemptRow>)
    returns (byId: map<string, string>, fallback: map<LegacyKey, set<string>>)
    ensures byId == AttemptToRun(attempts)
    ensures forall key :: Known(fallback, key) == Candidates(attempts, key)
  {
    byId, fallback := map[], map[];
    var i := 0;
    while i < |attempts|
      invariant 0 <= i <= |attempts|
      invariant byId == AttemptToRun(attempts[..i])
      invariant forall key :: Known(fallback, key) == Candidates(attempts[..i], key)
    {
      var a := attempts[i];
      assert attempts[..i + 1] == attempts[..i] + [a];
      assert attempts[..i + 1][..i] == attempts[..i];
      byId := byId[a.id := a.runId];
      forall key ensures Candidates(attempts[..i + 1], key)
          == if key == KeyOf(a) then Candidates(attempts[..i], key) + {a.runId} else Candidates(attempts[..i], key) {
        CandidatesSnoc(attempts[..i], a, key);
      }
      fallback := AddRun(fallback, KeyOf(a), a.runId);
      i := i + 1;
    }
    assert attempts[..i] == attempts;
  }

  /** The chain of tests inside the loop, on the two indexes instead of the rows. */
  method PlaceEvent(
    e: EventRow, runIds: set<string>, byId: map<string, string>, fallback: map<LegacyKey, set<string>>,
    ghost attempts: seq<AttemptRow>)
    returns (placed: Placement)
    requires byId == AttemptToRun(attempts)
    requires forall key :: Known(fallback, key) == Candidates(attempts, key)
    ensures placed == Place(e, runIds, attempts)
  {
    placed := Placement(None, Unassigned);
    if e.runId.Some? && e.runId.value in runIds {
      placed := Placement(e.runId, ByRun);
    } else if e.attemptId.Some? {
      if e.attemptId.value in byId {
        placed := Placement(Some(byId[e.attemptId.value]), ByAttempt);
      }
    } else if e.taskId.Some? && 0 < e.attempt {
      var candidates := Known(fallback, LegacyKey(e.goalId, e.taskId.value, e.attempt));
      if |candidates| == 1 {
        placed := Placement(Some(Only(candidates)), UniqueLegacy);
      } else if |candidates| > 1 {
        placed := Placement(None, AmbiguousLegacy);
      }
    }
  }

  lemma BucketNext(all: seq<Exported>, i: nat, k: Option<string>)
    requires i < |all|
    ensures Bucket(all[..i + 1], PlacedRun, k)
         == if all[i].placed.runId == k then Bucket(all[..i], PlacedRun, k) + [all[i]] else Bucket(all[..i], PlacedRun, k)
  {
    assert all[..i + 1] == all[..i] + [all[i]];
    BucketSnoc(all[..i], all[i], PlacedRun, k);
  }

  lemma NothingYet(all: seq<Exported>)
    ensures forall k :: Bucket(all[..0], PlacedRun, k) == []
  {
  }

  method CorrelateTelemetry(events: seq<EventRow>, runs: seq<RunRow>, attempts: seq<AttemptRow>)
    returns (correlated: map<string, seq<Exported>>, unassigned: seq<Exported>)
    ensures unassigned == Bucket(ExportEvents(events, runs, attempts), PlacedRun, None)
    ensures forall r :: Get(correlated, r) == Bucket(ExportEvents(events, runs, attempts), PlacedRun, Some(r))
  {
    var runIds := RunIds(runs);
    var byId, fallback := IndexAttempts(attempts);
    ghost var all := ExportEvents(events, runs, attempts);
    correlated, unassigned := map[], [];
    hide Bucket, Place, Candidates, AttemptToRun;
    var i := 0;
    assert forall k :: Bucket(all[..0], PlacedRun, k) == [] by {
      NothingYet(all);
    }
    while i < |events|
      invariant 0 <= i <= |events|
      invariant unassigned == Bucket(all[..i], PlacedRun, None)
      invariant forall r :: Get(correlated, r) == Bucket(all[..i], PlacedRun, Some(r))
    {
      var placed := PlaceEvent(events[i], runIds, byId, fallback, attempts);
      var exported := Exported(events[i], placed);
      assert exported == all[i];
      forall k ensures Bucket(all[..i + 1], PlacedRun, k)
          == if placed.runId == k then Bucket(all[..i], PlacedRun, k) + [exported] else Bucket(all[..i], PlacedRun, k) {
        BucketNext(all, i, k);
      }
      match placed.runId {
        case None => unassigned := unassigned + [exported];
        case Some(r) => correlated := Append(correlated, r, exported);
      }
      i := i + 1;
    }
    assert all[..i] == all;
  }
}
