/** The usage counters of the exporter's metrics, and how two of them are added. */
module UsageScope {
  import opened Options
  import opened Telemetry

  datatype Scope = Scope(
    sessions: int, calls: int, prompt: Option<int>, completion: Option<int>, total: Option<int>,
    coverage: map<string, int>)

  const INITIAL_COVERAGE: map<string, int> :=
    map["observations" := 0, "reported" := 0, "estimated" := 0, "unavailable" := 0, "legacy_unknown" := 0]

  const EMPTY_SCOPE := Scope(0, 0, None, None, None, INITIAL_COVERAGE)

  predicate Counted(e: EventRow) {
    e.kind == Some("model.usage") && e.payload.Some?
  }

  /** `value or default` on an optional number: zero and absent are the same. */
  function OrZero(n: Option<int>): int {
    if n.Some? then n.value else 0
  }

  function Quality(e: EventRow): string {
    if e.quality.Some? && e.quality.value != "" then e.quality.value else "legacy_unknown"
  }

  /** A counter that stays absent until something is added to it. */
  function AddToken(sum: Option<int>, raw: Option<int>): Option<int> {
    if raw.None? then sum else Some(OrZero(sum) + raw.value)
  }

  function CountOf(coverage: map<string, int>, k: string): int {
    if k in coverage then coverage[k] else 0
  }

  function Bump(coverage: map<string, int>, k: string): map<string, int> {
    coverage[k := CountOf(coverage, k) + 1]
  }

  function Record(s: Scope, e: EventRow): Scope
    requires e.payload.Some?
  {
    var p := e.payload.value;
    Scope(
      s.sessions + 1, s.calls + OrZero(p.llmCalls),
      AddToken(s.prompt, p.prompt), AddToken(s.completion, p.completion), AddToken(s.total, p.total),
      Bump(Bump(s.coverage, "observations"), Quality(e)))
  }

  function Note(s: Scope, e: EventRow): Scope {
    if Counted(e) then Record(s, e) else s
  }

  /** The scope after a list of events. */
  function Tally(events: seq<EventRow>): Scope {
    if events == [] then EMPTY_SCOPE else Note(Tally(events[..|events| - 1]), events[|events| - 1])
  }

  // ------------------------------------------------------------------ adding

  function AddCounts(a: map<string, int>, b: map<string, int>): map<string, int> {
    map k | k in a.Keys + b.Keys :: CountOf(a, k) + CountOf(b, k)
  }

  function Merge(a: Scope, b: Scope): Scope {
    Scope(
      a.sessions + b.sessions, a.calls + b.calls,
      AddToken(a.prompt, b.prompt), AddToken(a.completion, b.completion), AddToken(a.total, b.total),
      AddCounts(a.coverage, b.coverage))
  }

  lemma AddCountsCommutes(a: map<string, int>, b: map<string, int>)
    ensures AddCounts(a, b) == AddCounts(b, a)
  {
  }

  lemma AddCountsAssociates(a: map<string, int>, b: map<string, int>, c: map<string, int>)
    ensures AddCounts(AddCounts(a, b), c) == AddCounts(a, AddCounts(b, c))
  {
    var ab, bc := AddCounts(a, b), AddCounts(b, c);
    assert AddCounts(ab, c).Keys == AddCounts(a, bc).Keys;
  }

  lemma MergeCommutes(a: Scope, b: Scope)
    ensures Merge(a, b) == Merge(b, a)
  {
    AddCountsCommutes(a.coverage, b.coverage);
  }

  lemma MergeAssociates(a: Scope, b: Scope, c: Scope)
    ensures Merge(Merge(a, b), c) == Merge(a, Merge(b, c))
  {
    AddCountsAssociates(a.coverage, b.coverage, c.coverage);
  }

  predicate Covers(s: Scope) {
    INITIAL_COVERAGE.Keys <= s.coverage.Keys
  }

  lemma MergeEmpty(s: Scope)
    requires Covers(s)
    ensures Merge(s, EMPTY_SCOPE) == s
  {
    var sum := AddCounts(s.coverage, INITIAL_COVERAGE);
    assert sum.Keys == s.coverage.Keys;
    assert forall k :: CountOf(INITIAL_COVERAGE, k) == 0;
    assert sum == s.coverage;
  }

  lemma BumpIsAdd(a: map<string, int>, b: map<string, int>, k: string)
    ensures AddCounts(a, Bump(b, k)) == Bump(AddCounts(a, b), k)
  {
    var left, right := AddCounts(a, Bump(b, k)), Bump(AddCounts(a, b), k);
    assert left.Keys == right.Keys;
  }

  /** Recording an event after a merge is recording it in the second part. */
  lemma NoteMerges(a: Scope, b: Scope, e: EventRow)
    ensures Note(Merge(a, b), e) == Merge(a, Note(b, e))
  {
    if Counted(e) {
      BumpIsAdd(a.coverage, b.coverage, "observations");
      BumpIsAdd(a.coverage, Bump(b.coverage, "observations"), Quality(e));
    }
  }

  lemma {:induction false} TallyCovers(events: seq<EventRow>)
    ensures Covers(Tally(events))
    decreases |events|
  {
    if events != [] {
      TallyCovers(events[..|events| - 1]);
    }
  }

  /** Counting two lists one after the other is adding their counts. */
  lemma {:induction false} TallyConcat(a: seq<EventRow>, b: seq<EventRow>)
    ensures Tally(a + b) == Merge(Tally(a), Tally(b))
    decreases |b|
  {
    if b == [] {
      assert a + b == a;
      TallyCovers(a);
      MergeEmpty(Tally(a));
    } else {
      var front, last := b[..|b| - 1], b[|b| - 1];
      TallyConcat(a, front);
      assert (a + b)[..|a + b| - 1] == a + front;
      NoteMerges(Tally(a), Tally(front), last);
    }
  }
}
