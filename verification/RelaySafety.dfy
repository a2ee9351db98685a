/**
 What every run of the relay protocol keeps: deduplicated on `eventId`, the
 published outbox events are always exactly a prefix of the outbox, and that
 prefix covers every row marked delivered.
 */
module RelaySafety {
  import opened RelayProtocol

  /** The events of one source, in publication order. */
  function From(stream: seq<Event>, source: Source): seq<Event> {
    if stream == [] then []
    else
      var before := From(stream[..|stream| - 1], source);
      var last := stream[|stream| - 1];
      if last.source == source then before + [last] else before
  }

  predicate HasId(events: seq<Event>, id: string) {
    exists e <- events :: e.eventId == id
  }

  /** What a consumer keeps: the first occurrence of each event id. */
  function FirstSeen(events: seq<Event>): seq<Event> {
    if events == [] then []
    else
      var before := FirstSeen(events[..|events| - 1]);
      var last := events[|events| - 1];
      if HasId(before, last.eventId) then before else before + [last]
  }

  function Published(s: Relay, source: Source): seq<Event> {
    From(s.stream, source)
  }

  function Seen(s: Relay, source: Source): seq<Event> {
    FirstSeen(Published(s, source))
  }

  /** How many leading rows are delivered; in a reachable state no later row is. */
  function DeliveredCount(rows: seq<OutboxRow>): nat {
    if rows == [] || !rows[0].delivered then 0 else 1 + DeliveredCount(rows[1..])
  }

  /** How many leading agent rows the cursor has passed. */
  function PassedCount(rows: seq<AgentRow>, cursor: int): nat {
    if rows == [] || rows[0].id > cursor then 0 else 1 + PassedCount(rows[1..], cursor)
  }

  // ------------------------------------------------------------ invariant

  ghost predicate DistinctIds(log: seq<Event>) {
    forall a, b :: 0 <= a < b < |log| ==> log[a].eventId != log[b].eventId
  }

  /** Deduplicated, `events` is a prefix of `log` at least `low` long. */
  ghost predicate SeenPrefix(events: seq<Event>, log: seq<Event>, low: nat) {
    var seen := FirstSeen(events);
    low <= |seen| <= |log| && seen == log[..|seen|]
  }

  ghost predicate IdOrdered(rows: seq<OutboxRow>) {
    forall i, j :: 0 <= i < j < |rows| ==> rows[i].id < rows[j].id
  }

  ghost predicate DeliveredPrefix(rows: seq<OutboxRow>, d: nat) {
    d <= |rows| && forall i :: 0 <= i < |rows| ==> (rows[i].delivered <==> i < d)
  }

  ghost predicate AgentIdsOrdered(rows: seq<AgentRow>) {
    && (forall i, j :: 0 <= i < j < |rows| ==> rows[i].id < rows[j].id)
    && (forall i :: 0 <= i < |rows| ==> 0 < rows[i].id)
  }

  ghost predicate PassedPrefix(rows: seq<AgentRow>, cursor: int, c: nat) {
    && c <= |rows|
    && (forall i :: 0 <= i < |rows| ==> (rows[i].id <= cursor <==> i < c))
    && cursor == if c == 0 then 0 else rows[c - 1].id
  }

  function PublishedThisPass(s: Relay): nat {
    if s.phase.Draining? then s.phase.published else 0
  }

  function SentThisPass(s: Relay): nat {
    if s.phase.Tailing? then s.phase.sent else 0
  }

  ghost predicate DrainShape(s: Relay, d: nat, batch: nat) {
    s.phase.Draining? ==>
      && s.phase.marked <= s.phase.published <= |s.phase.rows| <= batch
      && d + |s.phase.rows| <= |s.outbox|
      && s.phase.rows == s.outbox[d..d + |s.phase.rows|]
  }

  ghost predicate TailShape(s: Relay, c: nat) {
    s.phase.Tailing? ==>
      && s.phase.sent <= |s.phase.feed|
      && c + |s.phase.feed| <= |s.agents|
      && s.phase.feed == s.agents[c..c + |s.phase.feed|]
      && s.phase.reached == if s.phase.sent == 0 then s.cursor else s.phase.feed[s.phase.sent - 1].id
  }

  ghost predicate OutboxHalf(s: Relay, batch: nat) {
    var d := DeliveredCount(s.outbox);
    && IdOrdered(s.outbox)
    && DistinctIds(OutboxEvents(s.outbox))
    && DeliveredPrefix(s.outbox, d)
    && DrainShape(s, d, batch)
    && SeenPrefix(Published(s, Outbox), OutboxEvents(s.outbox), d + PublishedThisPass(s))
    && |Published(s, Outbox)| <= d + PublishedThisPass(s) + batch * s.failedPasses
  }

  ghost predicate AgentHalf(s: Relay) {
    var c := PassedCount(s.agents, s.cursor);
    && AgentIdsOrdered(s.agents)
    && DistinctIds(AgentEvents(s.agents))
    && PassedPrefix(s.agents, s.cursor, c)
    && TailShape(s, c)
    && SeenPrefix(Published(s, AgentFeed), AgentEvents(s.agents), c + SentThisPass(s))
  }

  ghost predicate Inv(s: Relay, batch: nat) {
    OutboxHalf(s, batch) && AgentHalf(s)
  }

  // -------------------------------------------------------- row selection

  lemma {:induction false} SelectsAfterPrefix(rows: seq<OutboxRow>, d: nat)
    requires DeliveredPrefix(rows, d)
    ensures Undelivered(rows) == rows[d..] && DeliveredCount(rows) == d
  {
    if rows != [] {
      assert forall i :: 0 < i < |rows| ==> rows[i] == rows[1..][i - 1];
      SelectsAfterPrefix(rows[1..], if d == 0 then 0 else d - 1);
    }
  }

  lemma {:induction false} FeedsAfterCursor(rows: seq<AgentRow>, cursor: int, c: nat)
    requires c <= |rows| && forall i :: 0 <= i < |rows| ==> (rows[i].id <= cursor <==> i < c)
    ensures After(rows, cursor) == rows[c..] && PassedCount(rows, cursor) == c
  {
    if rows != [] {
      assert forall i :: 0 < i < |rows| ==> rows[i] == rows[1..][i - 1];
      FeedsAfterCursor(rows[1..], cursor, if c == 0 then 0 else c - 1);
    }
  }

  // ------------------------------------------------------- deduplication

  lemma FromSnoc(stream: seq<Event>, e: Event, source: Source)
    ensures From(stream + [e], source)
         == if e.source == source then From(stream, source) + [e] else From(stream, source)
  {
    assert (stream + [e])[..|stream|] == stream;
  }

  /** Publishing row `i` of a log whose first `i` rows were already seen keeps the prefix. */
  lemma SeenPublish(events: seq<Event>, log: seq<Event>, i: nat)
    requires DistinctIds(log) && SeenPrefix(events, log, i) && i < |log|
    ensures SeenPrefix(events + [log[i]], log, i + 1)
  {
    var before := FirstSeen(events);
    assert (events + [log[i]])[..|events|] == events;
    if i < |before| {
      assert before[i] == log[i];
    } else {
      assert forall k :: 0 <= k < |before| ==> before[k] == log[k];
      assert !HasId(before, log[i].eventId);
    }
  }

  lemma SeenLogGrows(events: seq<Event>, log: seq<Event>, e: Event, low: nat)
    requires SeenPrefix(events, log, low)
    ensures SeenPrefix(events, log + [e], low)
  {
  }

  // ------------------------------------------------------------ the steps

  lemma OutboxFrame(s: Relay, t: Relay, batch: nat)
    requires OutboxHalf(s, batch)
    requires t.outbox == s.outbox && t.failedPasses == s.failedPasses
    requires Published(t, Outbox) == Published(s, Outbox)
    requires s.phase == t.phase || (!s.phase.Draining? && !t.phase.Draining?)
    ensures OutboxHalf(t, batch)
  {
    hide IdOrdered, DistinctIds, DeliveredPrefix, SeenPrefix, DeliveredCount, From;
  }

  lemma AgentFrame(s: Relay, t: Relay)
    requires AgentHalf(s)
    requires t.agents == s.agents && t.cursor == s.cursor
    requires Published(t, AgentFeed) == Published(s, AgentFeed)
    requires s.phase == t.phase || !t.phase.Tailing?
    ensures AgentHalf(t)
  {
    hide AgentIdsOrdered, DistinctIds, PassedPrefix, PassedCount, From, FirstSeen;
  }

  lemma StreamGrows(stream: seq<Event>, log: seq<Event>, i: nat)
    requires DistinctIds(log) && i < |log| && SeenPrefix(From(stream, log[i].source), log, i)
    ensures SeenPrefix(From(stream + [log[i]], log[i].source), log, i + 1)
  {
    FromSnoc(stream, log[i], log[i].source);
    SeenPublish(From(stream, log[i].source), log, i);
  }

  lemma PublishKeeps(s: Relay, batch: nat)
    requires OutboxHalf(s, batch) && Enabled(s, Publish)
    ensures OutboxHalf(Apply(s, Publish, batch), batch)
  {
    hide IdOrdered, DistinctIds, DeliveredPrefix, SeenPrefix, DeliveredCount, From;
    var d, p := DeliveredCount(s.outbox), s.phase.published;
    assert s.phase.rows[p] == s.outbox[d + p];
    FromSnoc(s.stream, OutboxEvents(s.outbox)[d + p], Outbox);
    StreamGrows(s.stream, OutboxEvents(s.outbox), d + p);
  }

  lemma SendKeeps(s: Relay, batch: nat)
    requires AgentHalf(s) && Enabled(s, Send)
    ensures AgentHalf(Apply(s, Send, batch))
  {
    hide AgentIdsOrdered, DistinctIds, PassedPrefix, SeenPrefix, PassedCount, From;
    var c, p := PassedCount(s.agents, s.cursor), s.phase.sent;
    var t := Apply(s, Send, batch);
    ReachedIsLast(s, c);
    assert TailShape(t, c);
    assert SeenPrefix(Published(t, AgentFeed), AgentEvents(s.agents), c + p + 1) by {
      StreamGrows(s.stream, AgentEvents(s.agents), c + p);
    }
  }

  lemma ReachedIsLast(s: Relay, c: nat)
    requires s.phase.Tailing? && TailShape(s, c) && s.phase.sent < |s.phase.feed|
    requires AgentIdsOrdered(s.agents) && PassedPrefix(s.agents, s.cursor, c)
    ensures s.phase.feed[s.phase.sent] == s.agents[c + s.phase.sent]
    ensures Max(s.phase.reached, s.phase.feed[s.phase.sent].id) == s.phase.feed[s.phase.sent].id
  {
    var p := s.phase.sent;
    if p > 0 {
      assert s.phase.feed[p - 1] == s.agents[c + p - 1];
    }
  }

  /** Marking the selected rows by id marks exactly the next `n` rows of the table. */
  lemma MarksNext(rows: seq<OutboxRow>, d: nat, n: nat)
    requires IdOrdered(rows) && DeliveredPrefix(rows, d) && d + n <= |rows|
    ensures DeliveredPrefix(MarkDelivered(rows, Ids(rows[d..d + n])), d + n)
    ensures IdOrdered(MarkDelivered(rows, Ids(rows[d..d + n])))
    ensures OutboxEvents(MarkDelivered(rows, Ids(rows[d..d + n]))) == OutboxEvents(rows)
  {
    var chosen := rows[d..d + n];
    forall i | 0 <= i < |rows|
      ensures rows[i].id in Ids(chosen) <==> d <= i < d + n
    {
      if d <= i < d + n {
        assert chosen[i - d] == rows[i];
      }
    }
  }

  lemma CommitKeeps(s: Relay, batch: nat)
    requires OutboxHalf(s, batch) && Enabled(s, Commit)
    ensures OutboxHalf(Apply(s, Commit, batch), batch)
  {
    hide FirstSeen, From, Undelivered, DistinctIds;
    var d, n := DeliveredCount(s.outbox), |s.phase.rows|;
    MarksNext(s.outbox, d, n);
    SelectsAfterPrefix(MarkDelivered(s.outbox, Ids(s.phase.rows)), d + n);
  }

  lemma FinishKeeps(s: Relay, batch: nat)
    requires AgentHalf(s) && Enabled(s, Finish)
    ensures AgentHalf(Apply(s, Finish, batch))
  {
    var c, n := PassedCount(s.agents, s.cursor), |s.phase.feed|;
    if n > 0 {
      assert s.phase.feed[n - 1] == s.agents[c + n - 1];
    }
    FeedsAfterCursor(s.agents, s.phase.reached, c + n);
  }

  /** A new row with the next id and a new event id extends the log at its end. */
  lemma LogGrows(rows: seq<OutboxRow>, row: OutboxRow, d: nat)
    requires IdOrdered(rows) && DistinctIds(OutboxEvents(rows)) && DeliveredPrefix(rows, d)
    requires !row.delivered && forall r <- rows :: r.id < row.id && r.eventId != row.eventId
    ensures IdOrdered(rows + [row]) && DeliveredPrefix(rows + [row], d)
    ensures OutboxEvents(rows + [row]) == OutboxEvents(rows) + [OutboxEvent(row)]
    ensures DistinctIds(OutboxEvents(rows + [row]))
  {
    assert forall i :: 0 <= i < |rows| ==> rows[i] in rows;
  }

  lemma FeedGrows(rows: seq<AgentRow>, row: AgentRow)
    requires AgentIdsOrdered(rows) && DistinctIds(AgentEvents(rows))
    requires 0 < row.id && forall r <- rows :: r.id < row.id && r.eventId != row.eventId
    ensures AgentIdsOrdered(rows + [row])
    ensures AgentEvents(rows + [row]) == AgentEvents(rows) + [AgentEvent(row)]
    ensures DistinctIds(AgentEvents(rows + [row]))
  {
    assert forall i :: 0 <= i < |rows| ==> rows[i] in rows;
  }

  lemma AppendKeeps(s: Relay, row: OutboxRow, batch: nat)
    requires OutboxHalf(s, batch) && FreshRow(s, row)
    ensures OutboxHalf(Apply(s, AppendRow(row), batch), batch)
  {
    hide FirstSeen, From, Undelivered, DeliveredCount, DeliveredPrefix, IdOrdered, DistinctIds;
    var d := DeliveredCount(s.outbox);
    LogGrows(s.outbox, row, d);
    SelectsAfterPrefix(s.outbox + [row], d);
    SeenLogGrows(Published(s, Outbox), OutboxEvents(s.outbox), OutboxEvent(row), d + PublishedThisPass(s));
  }

  /** The cursor never runs past the newest row, so a new row is always still ahead of it. */
  lemma CursorBehind(s: Relay, row: AgentRow)
    requires FreshAgent(s, row)
    requires PassedPrefix(s.agents, s.cursor, PassedCount(s.agents, s.cursor))
    ensures PassedPrefix(s.agents + [row], s.cursor, PassedCount(s.agents, s.cursor))
  {
    var c := PassedCount(s.agents, s.cursor);
    if c > 0 {
      assert s.agents[c - 1] in s.agents;
    }
  }

  lemma AppendAgentKeeps(s: Relay, row: AgentRow, batch: nat)
    requires AgentHalf(s) && FreshAgent(s, row)
    ensures AgentHalf(Apply(s, AppendAgent(row), batch))
  {
    hide FirstSeen, From, After, PassedCount, AgentIdsOrdered, DistinctIds;
    var c := PassedCount(s.agents, s.cursor);
    var t := Apply(s, AppendAgent(row), batch);
    FeedGrows(s.agents, row);
    CursorBehind(s, row);
    FeedsAfterCursor(t.agents, s.cursor, c);
    SeenLogGrows(Published(s, AgentFeed), AgentEvents(s.agents), AgentEvent(row), c + SentThisPass(s));
    assert TailShape(t, c);
  }

  lemma PassEndsKeeps(s: Relay, t: Relay, batch: nat)
    requires OutboxHalf(s, batch)
    requires t.outbox == s.outbox && t.stream == s.stream && !t.phase.Draining?
    requires t.failedPasses == s.failedPasses + 1
    ensures OutboxHalf(t, batch)
  {
    hide IdOrdered, DistinctIds, DeliveredPrefix, DeliveredCount, From, FirstSeen;
    assert batch * (s.failedPasses + 1) == batch * s.failedPasses + batch;
  }

  lemma BeginKeeps(s: Relay, batch: nat)
    requires OutboxHalf(s, batch) && Enabled(s, Begin)
    ensures OutboxHalf(Apply(s, Begin, batch), batch)
  {
    hide FirstSeen, From, DistinctIds, IdOrdered, DeliveredCount, DeliveredPrefix, Undelivered;
    SelectsAfterPrefix(s.outbox, DeliveredCount(s.outbox));
  }

  lemma SelectFeedKeeps(s: Relay, batch: nat)
    requires AgentHalf(s) && Enabled(s, SelectFeed)
    ensures AgentHalf(Apply(s, SelectFeed, batch))
  {
    hide FirstSeen, From, DistinctIds, After, PassedCount;
    FeedsAfterCursor(s.agents, s.cursor, PassedCount(s.agents, s.cursor));
  }

  lemma RestartKeeps(s: Relay, batch: nat)
    requires AgentHalf(s)
    ensures AgentHalf(Apply(s, Restart, batch))
  {
    hide FirstSeen, From, After, DistinctIds;
    FeedsAfterCursor(s.agents, 0, 0);
  }

  lemma OutboxStep(s: Relay, step: Step, batch: nat)
    requires Inv(s, batch) && Enabled(s, step)
    ensures OutboxHalf(Apply(s, step, batch), batch)
  {
    hide AgentHalf, From, FirstSeen, IdOrdered, DistinctIds, DeliveredPrefix, DeliveredCount;
    var t := Apply(s, step, batch);
    match step
    case AppendRow(row) => AppendKeeps(s, row, batch);
    case Publish => PublishKeeps(s, batch);
    case Commit => CommitKeeps(s, batch);
    case Begin => BeginKeeps(s, batch);
    case Mark =>
    case Send => FromSnoc(s.stream, AgentEvent(s.phase.feed[s.phase.sent]), Outbox); OutboxFrame(s, t, batch);
    case AppendAgent(_) => OutboxFrame(s, t, batch);
    case SelectFeed => OutboxFrame(s, t, batch);
    case Finish => OutboxFrame(s, t, batch);
    case Fail => PassEndsKeeps(s, t, batch);
    case Restart => if !s.phase.Idle? { PassEndsKeeps(s, t, batch); }
  }

  lemma AgentStep(s: Relay, step: Step, batch: nat)
    requires Inv(s, batch) && Enabled(s, step)
    ensures AgentHalf(Apply(s, step, batch))
  {
    var t := Apply(s, step, batch);
    match step
    case AppendAgent(row) => AppendAgentKeeps(s, row, batch);
    case Send => SendKeeps(s, batch);
    case SelectFeed => SelectFeedKeeps(s, batch);
    case Finish => FinishKeeps(s, batch);
    case Restart => RestartKeeps(s, batch);
    case Publish => FromSnoc(s.stream, OutboxEvent(s.phase.rows[s.phase.published]), AgentFeed); AgentFrame(s, t);
    case AppendRow(_) => AgentFrame(s, t);
    case Commit => AgentFrame(s, t);
    case Begin => AgentFrame(s, t);
    case Mark => AgentFrame(s, t);
    case Fail => AgentFrame(s, t);
  }

  /** Every step of the protocol, failures and restarts included, keeps the invariant. */
  lemma StepKeeps(s: Relay, step: Step, batch: nat)
    requires Inv(s, batch) && Enabled(s, step)
    ensures Inv(Apply(s, step, batch), batch)
  {
    OutboxStep(s, step, batch);
    AgentStep(s, step, batch);
  }

  // ------------------------------------------------------- the guarantees

  lemma {:induction false} RunsKeep(s: Relay, steps: seq<Step>, batch: nat, t: Relay)
    requires Inv(s, batch) && Runs(s, steps, batch, t)
    ensures Inv(t, batch)
    decreases |steps|
  {
    if steps != [] {
      StepKeeps(s, steps[0], batch);
      RunsKeep(Apply(s, steps[0], batch), steps[1..], batch, t);
    }
  }

  lemma EmptyHolds(batch: nat)
    ensures Inv(Empty, batch)
  {
  }

  /**
   At-least-once and in order, over every interleaving of appends, passes,
   failures and restarts: the deduplicated stream is a prefix of the outbox,
   and no row is marked delivered beyond it.
   */
  lemma DedupIsOutboxPrefix(steps: seq<Step>, batch: nat, t: Relay)
    requires Runs(Empty, steps, batch, t)
    ensures Seen(t, Outbox) <= OutboxEvents(t.outbox)
    ensures forall i :: 0 <= i < |t.outbox| && t.outbox[i].delivered ==>
      i < |Seen(t, Outbox)| && Seen(t, Outbox)[i] == OutboxEvent(t.outbox[i])
    // What is seen of a row: its own kind, event id and payload.
    ensures |Seen(t, Outbox)| <= |t.outbox|
    ensures forall i :: 0 <= i < |Seen(t, Outbox)| ==>
      Seen(t, Outbox)[i] == Event(Outbox, t.outbox[i].kind, t.outbox[i].eventId, t.outbox[i].payload)
  {
    EmptyHolds(batch);
    RunsKeep(Empty, steps, batch, t);
    OutboxFacts(t, batch);
  }

  lemma OutboxFacts(t: Relay, batch: nat)
    requires OutboxHalf(t, batch)
    ensures Seen(t, Outbox) <= OutboxEvents(t.outbox)
    ensures forall i :: 0 <= i < |t.outbox| && t.outbox[i].delivered ==>
      i < |Seen(t, Outbox)| && Seen(t, Outbox)[i] == OutboxEvent(t.outbox[i])
  {
    var seen, log := Seen(t, Outbox), OutboxEvents(t.outbox);
    assert seen == log[..|seen|];
  }

  /** The agent feed, although re-read from cursor zero after a restart, has the same shape. */
  lemma DedupIsFeedPrefix(steps: seq<Step>, batch: nat, t: Relay)
    requires Runs(Empty, steps, batch, t)
    ensures Seen(t, AgentFeed) <= AgentEvents(t.agents)
    ensures forall i :: 0 <= i < |t.agents| && t.agents[i].id <= t.cursor ==> i < |Seen(t, AgentFeed)|
    ensures |Seen(t, AgentFeed)| <= |t.agents|
    ensures forall i :: 0 <= i < |Seen(t, AgentFeed)| ==>
      Seen(t, AgentFeed)[i] == Event(AgentFeed, "agent.event", t.agents[i].eventId, t.agents[i].payload)
  {
    EmptyHolds(batch);
    RunsKeep(Empty, steps, batch, t);
    var seen, log := Seen(t, AgentFeed), AgentEvents(t.agents);
    assert seen == log[..|seen|];
  }

  /** Each failed or killed pass costs at most one batch of repeated publications. */
  lemma RepeatsBounded(steps: seq<Step>, batch: nat, t: Relay)
    requires Runs(Empty, steps, batch, t)
    ensures |Published(t, Outbox)| - |Seen(t, Outbox)| <= batch * t.failedPasses
  {
    EmptyHolds(batch);
    RunsKeep(Empty, steps, batch, t);
  }
}
