/**
 The relay thread itself: one pass over the database, and the polling loop that
 carries the agent cursor between passes.
 */
module OutboxRelay {
  import opened Options
  import opened RelayProtocol
  import opened RelaySafety

  predicate AllDecodable(rows: seq<OutboxRow>) {
    forall i :: 0 <= i < |rows| ==> rows[i].decodable
  }

  predicate FeedDecodable(feed: seq<AgentRow>) {
    forall i :: 0 <= i < |feed| ==> feed[i].decodable
  }

  // Rows offered to the two tables between two passes.
  datatype Arrival = Arrival(rows: seq<OutboxRow>, agents: seq<AgentRow>)

  predicate NoArrivals(arrivals: seq<Arrival>) {
    forall i :: 0 <= i < |arrivals| ==> arrivals[i] == Arrival([], [])
  }

  /** The rows in front of the first whose payload cannot be decoded. */
  function Good(rows: seq<OutboxRow>): (good: seq<OutboxRow>)
    ensures good <= rows && (|good| < |rows| ==> !rows[|good|].decodable)
    ensures forall i :: 0 <= i < |good| ==> rows[i].decodable
  {
    if rows == [] || !rows[0].decodable then [] else [rows[0]] + Good(rows[1..])
  }

  function GoodFeed(feed: seq<AgentRow>): (good: seq<AgentRow>)
    ensures good <= feed && (|good| < |feed| ==> !feed[|good|].decodable)
    ensures forall i :: 0 <= i < |good| ==> feed[i].decodable
  {
    if feed == [] || !feed[0].decodable then [] else [feed[0]] + GoodFeed(feed[1..])
  }

  /** What a pass with no injected fault leaves in the outbox table. */
  function CleanPass(rows: seq<OutboxRow>, batch: nat): seq<OutboxRow> {
    var chosen := SelectUndelivered(rows, batch);
    if AllDecodable(chosen) then MarkDelivered(rows, Ids(chosen)) else rows
  }

  lemma DecodableNext(rows: seq<OutboxRow>, i: nat)
    requires i < |rows|
    ensures AllDecodable(rows[..i + 1]) <==> AllDecodable(rows[..i]) && rows[i].decodable
    ensures AllDecodable(rows) ==> rows[i].decodable
  {
    assert rows[..i + 1] == rows[..i] + [rows[i]];
  }

  lemma FeedDecodableNext(feed: seq<AgentRow>, i: nat)
    requires i < |feed|
    ensures FeedDecodable(feed[..i + 1]) <==> FeedDecodable(feed[..i]) && feed[i].decodable
    ensures FeedDecodable(feed) ==> feed[i].decodable
  {
    assert feed[..i + 1] == feed[..i] + [feed[i]];
  }

  lemma NothingFedYet(feed: seq<AgentRow>, cursor: int)
    ensures FeedDecodable(feed[..0]) && CursorAfter(cursor, feed[..0]) == cursor
  {
  }

  lemma CleanNext(faults: seq<Option<nat>>, i: nat)
    requires i < |faults|
    ensures NoFaults(faults[..i + 1]) <==> NoFaults(faults[..i]) && faults[i].None?
  {
    assert faults[..i + 1] == faults[..i] + [faults[i]];
  }

  lemma CleanStart(s: Relay, faults: seq<Option<nat>>, batch: nat)
    ensures NoFaults(faults[..0]) && Runs(s, [], batch, s)
  {
  }

  /** The largest of the cursor and the ids of a list of agent rows. */
  function CursorAfter(cursor: int, feed: seq<AgentRow>): int {
    if feed == [] then cursor else Max(CursorAfter(cursor, feed[..|feed| - 1]), feed[|feed| - 1].id)
  }

  lemma CursorNext(cursor: int, feed: seq<AgentRow>, i: nat)
    requires i < |feed|
    ensures CursorAfter(cursor, feed[..i + 1]) == Max(CursorAfter(cursor, feed[..i]), feed[i].id)
  {
    assert feed[..i + 1][..i] == feed[..i];
  }

  /** A pass that ends keeps the cursor unless the whole feed went out. */
  predicate CursorMoves(ok: bool, before: int, agents: seq<AgentRow>, batch: nat, after: int) {
    after == if ok then CursorAfter(before, SelectAgentEvents(agents, before, batch)) else before
  }

  lemma GoodIs(rows: seq<OutboxRow>, i: nat)
    requires i <= |rows| && AllDecodable(rows[..i]) && (i < |rows| ==> !rows[i].decodable)
    ensures Good(rows) == rows[..i] && (AllDecodable(rows) <==> i == |rows|)
  {
    hide Good;
    assert forall j :: 0 <= j < i ==> rows[..i][j].decodable;
    var n := |Good(rows)|;
    assert n < |rows| ==> !rows[n].decodable;
    assert n == i;
  }

  lemma GoodFeedIs(feed: seq<AgentRow>, i: nat)
    requires i <= |feed| && FeedDecodable(feed[..i]) && (i < |feed| ==> !feed[i].decodable)
    ensures GoodFeed(feed) == feed[..i] && (FeedDecodable(feed) <==> i == |feed|)
  {
    hide GoodFeed;
    assert forall j :: 0 <= j < i ==> feed[..i][j].decodable;
    var n := |GoodFeed(feed)|;
    assert n < |feed| ==> !feed[n].decodable;
    assert n == i;
  }

  lemma EventsNext(rows: seq<OutboxRow>, i: nat)
    requires i < |rows|
    ensures OutboxEvents(rows[..i + 1]) == OutboxEvents(rows[..i]) + [OutboxEvent(rows[i])]
  {
  }

  lemma FeedEventsNext(feed: seq<AgentRow>, i: nat)
    requires i < |feed|
    ensures AgentEvents(feed[..i + 1]) == AgentEvents(feed[..i]) + [AgentEvent(feed[i])]
  {
  }

  lemma IdsNext(rows: seq<OutboxRow>, i: nat)
    requires i < |rows|
    ensures Ids(rows[..i + 1]) == Ids(rows[..i]) + {rows[i].id}
  {
    assert rows[..i + 1] == rows[..i] + [rows[i]];
  }

  lemma NoneYet(rows: seq<OutboxRow>)
    ensures AllDecodable(rows[..0]) && Ids(rows[..0]) == {}
  {
  }

  lemma BeginRuns(s: Relay, batch: nat)
    requires s.phase.Idle?
    ensures Runs(s, [Begin], batch, Apply(s, Begin, batch))
  {
    assert [Begin][1..] == [];
  }

  function Passes(rows: seq<OutboxRow>, batch: nat, n: nat): seq<OutboxRow> {
    if n == 0 then rows else CleanPass(Passes(rows, batch, n - 1), batch)
  }

  /** What such a pass publishes. */
  function Sent(rows: seq<OutboxRow>, agents: seq<AgentRow>, cursor: int, batch: nat): seq<Event> {
    var chosen := SelectUndelivered(rows, batch);
    OutboxEvents(Good(chosen)) +
    if AllDecodable(chosen) then AgentEvents(GoodFeed(SelectAgentEvents(agents, cursor, batch))) else []
  }

  /** Whether it reaches its end. */
  predicate Ends(rows: seq<OutboxRow>, agents: seq<AgentRow>, cursor: int, batch: nat) {
    AllDecodable(SelectUndelivered(rows, batch)) && FeedDecodable(SelectAgentEvents(agents, cursor, batch))
  }

  /** The cursor after `n` such passes. */
  function CursorPasses(rows: seq<OutboxRow>, agents: seq<AgentRow>, cursor: int, batch: nat, n: nat): int {
    if n == 0 then cursor
    else
      var before := CursorPasses(rows, agents, cursor, batch, n - 1);
      if Ends(Passes(rows, batch, n - 1), agents, before, batch)
      then CursorAfter(before, SelectAgentEvents(agents, before, batch)) else before
  }

  lemma CursorPassesNext(rows: seq<OutboxRow>, agents: seq<AgentRow>, cursor: int, batch: nat, n: nat)
    ensures var before := CursorPasses(rows, agents, cursor, batch, n);
      CursorMoves(Ends(Passes(rows, batch, n), agents, before, batch), before, agents, batch,
        CursorPasses(rows, agents, cursor, batch, n + 1))
  {
  }

  // ------------------------------------------------- rounds with arrivals

  // The two tables, the cursor and everything published.
  datatype Ledger = Book(outbox: seq<OutboxRow>, agents: seq<AgentRow>, cursor: int, stream: seq<Event>)

  predicate Accepts(rows: seq<OutboxRow>, row: OutboxRow) {
    !row.delivered && 0 < row.id && forall r <- rows :: r.id < row.id && r.eventId != row.eventId
  }

  /** The table after the rows it accepts have been added, in order. */
  function Added(rows: seq<OutboxRow>, more: seq<OutboxRow>): seq<OutboxRow> {
    if more == [] then rows
    else
      var before, row := Added(rows, more[..|more| - 1]), more[|more| - 1];
      if Accepts(before, row) then before + [row] else before
  }

  predicate AcceptsAgent(rows: seq<AgentRow>, row: AgentRow) {
    0 < row.id && forall r <- rows :: r.id < row.id && r.eventId != row.eventId
  }

  function AddedAgents(rows: seq<AgentRow>, more: seq<AgentRow>): seq<AgentRow> {
    if more == [] then rows
    else
      var before, row := AddedAgents(rows, more[..|more| - 1]), more[|more| - 1];
      if AcceptsAgent(before, row) then before + [row] else before
  }

  /** One arrival and one pass without an injected fault. */
  function Round(l: Ledger, arrival: Arrival, batch: nat): Ledger {
    var rows, agents := Added(l.outbox, arrival.rows), AddedAgents(l.agents, arrival.agents);
    Book(
      CleanPass(rows, batch), agents,
      if Ends(rows, agents, l.cursor, batch) then CursorAfter(l.cursor, SelectAgentEvents(agents, l.cursor, batch))
      else l.cursor,
      l.stream + Sent(rows, agents, l.cursor, batch))
  }

  function Rounds(l: Ledger, arrivals: seq<Arrival>, batch: nat): Ledger {
    if arrivals == [] then l
    else Round(Rounds(l, arrivals[..|arrivals| - 1], batch), arrivals[|arrivals| - 1], batch)
  }

  lemma RoundsStart(l: Ledger, arrivals: seq<Arrival>, batch: nat)
    ensures Rounds(l, arrivals[..0], batch) == l
  {
  }

  lemma RoundsNext(l: Ledger, arrivals: seq<Arrival>, batch: nat, i: nat)
    requires i < |arrivals|
    ensures Rounds(l, arrivals[..i + 1], batch) == Round(Rounds(l, arrivals[..i], batch), arrivals[i], batch)
  {
    assert arrivals[..i + 1][..i] == arrivals[..i];
  }

  lemma RoundIs(l: Ledger, arrival: Arrival, batch: nat, next: Ledger)
    ensures
      var rows, agents := Added(l.outbox, arrival.rows), AddedAgents(l.agents, arrival.agents);
      next.agents == agents && next.outbox == CleanPass(rows, batch)
      && next.stream == l.stream + Sent(rows, agents, l.cursor, batch)
      && CursorMoves(Ends(rows, agents, l.cursor, batch), l.cursor, agents, batch, next.cursor)
      ==> next == Round(l, arrival, batch)
  {
  }

  /** Without arrivals the rounds are the passes. */
  lemma {:induction false} QuietRounds(l: Ledger, arrivals: seq<Arrival>, batch: nat)
    requires NoArrivals(arrivals)
    ensures var r := Rounds(l, arrivals, batch);
      && r.outbox == Passes(l.outbox, batch, |arrivals|) && r.agents == l.agents
      && r.cursor == CursorPasses(l.outbox, l.agents, l.cursor, batch, |arrivals|)
    decreases |arrivals|
  {
    hide CleanPass, Ends, Sent, CursorAfter, SelectAgentEvents;
    if arrivals != [] {
      QuietRounds(l, arrivals[..|arrivals| - 1], batch);
      assert arrivals[|arrivals| - 1] == Arrival([], []);
    }
  }

  // ------------------------------------------------- a pass, in terms of rows

  function Min(a: nat, b: nat): nat { if a < b then a else b }

  /** The first `d` outbox rows are delivered and the cursor has passed the first `c` agent rows. */
  ghost predicate At(s: Relay, d: nat, c: nat) {
    && IdOrdered(s.outbox) && DeliveredPrefix(s.outbox, d)
    && FeedAt(s.agents, s.cursor, c)
  }

  ghost predicate FeedAt(agents: seq<AgentRow>, cursor: int, c: nat) {
    && c <= |agents|
    && (forall i, j :: 0 <= i < j < |agents| ==> agents[i].id < agents[j].id)
    && (forall i :: 0 <= i < |agents| ==> (agents[i].id <= cursor <==> i < c))
  }

  /**
   What a pass does from there, said of the next rows of the two tables.  Of its
   operations, number 0 selects, 2i + 1 publishes row i, 2i + 2 marks it, then
   follow the commit, the second select and one send for each event of the feed;
   `failAt` is the one that raises, if any.
   */
  ghost predicate Outcome(
      s: Relay, t: Relay, delivered: Option<nat>, failAt: Option<nat>, batch: nat, d: nat, c: nat)
    requires At(s, d, c)
  {
    OutcomeOf(s, t, delivered, failAt, d,
      s.outbox[d..Min(|s.outbox|, d + batch)], s.agents[c..Min(|s.agents|, c + batch)])
  }

  ghost predicate OutcomeOf(
      s: Relay, t: Relay, delivered: Option<nat>, failAt: Option<nat>, d: nat, rows: seq<OutboxRow>, feed: seq<AgentRow>) {
    var second := 2 * |rows| + 2;
    var commits := AllDecodable(rows) && (failAt.None? || second <= failAt.value);
    var ends := commits && FeedDecodable(feed) && (failAt.None? || second + |feed| < failAt.value);
    var published := if failAt.None? then |Good(rows)| else Min(|Good(rows)|, failAt.value / 2);
    var sent :=
      if !commits || failAt == Some(second) then 0
      else if failAt.None? then |GoodFeed(feed)|
      else Min(|GoodFeed(feed)|, failAt.value - second - 1);
    && delivered == (if ends then Some(|rows|) else None)
    && t.stream == s.stream + OutboxEvents(rows[..published]) + AgentEvents(feed[..sent])
    && t.cursor == (if ends && feed != [] then feed[|feed| - 1].id else s.cursor)
    && t.agents == s.agents && |t.outbox| == |s.outbox|
    && forall i :: 0 <= i < |s.outbox| ==>
         t.outbox[i] == if d <= i < d + |rows| && commits then s.outbox[i].(delivered := true) else s.outbox[i]
  }

  lemma NextRows(rows: seq<OutboxRow>, d: nat, batch: nat)
    requires IdOrdered(rows) && DeliveredPrefix(rows, d)
    ensures SelectUndelivered(rows, batch) == rows[d..Min(|rows|, d + batch)]
  {
    SelectsAfterPrefix(rows, d);
  }

  lemma NextFeed(agents: seq<AgentRow>, cursor: int, c: nat, batch: nat)
    requires FeedAt(agents, cursor, c)
    ensures SelectAgentEvents(agents, cursor, batch) == agents[c..Min(|agents|, c + batch)]
  {
    FeedsAfterCursor(agents, cursor, c);
  }

  lemma {:induction false} CursorIsLast(agents: seq<AgentRow>, cursor: int, c: nat, n: nat)
    requires FeedAt(agents, cursor, c) && c <= n <= |agents|
    ensures CursorAfter(cursor, agents[c..n]) == if n == c then cursor else agents[n - 1].id
    decreases n
  {
    if c < n {
      CursorIsLast(agents, cursor, c, n - 1);
      assert agents[c..n][..n - c - 1] == agents[c..n - 1];
    }
  }

  lemma NextMarked(rows: seq<OutboxRow>, d: nat, next: nat)
    requires IdOrdered(rows) && DeliveredPrefix(rows, d) && d <= next <= |rows|
    ensures forall i :: 0 <= i < |rows| ==>
      MarkDelivered(rows, Ids(rows[d..next]))[i] == if d <= i < next then rows[i].(delivered := true) else rows[i]
  {
    forall i | 0 <= i < |rows| ensures rows[i].id in Ids(rows[d..next]) <==> d <= i < next {
      if d <= i < next {
        assert rows[d..next][i - d] == rows[i];
      }
    }
  }

  predicate Commits(failAt: Option<nat>, rows: seq<OutboxRow>) {
    AllDecodable(rows) && (failAt.None? || 2 * |rows| + 2 <= failAt.value)
  }

  function PublishedUpTo(failAt: Option<nat>, good: nat): (n: nat)
    ensures n <= good
  {
    if failAt.None? then good else Min(good, failAt.value / 2)
  }

  /** How many of the `good` sends are made after the first `done` operations of a pass. */
  function SentAfter(failAt: Option<nat>, done: nat, good: nat): (n: nat)
    ensures n <= good
  {
    if failAt.None? || failAt.value < done then good
    else if failAt.value == done then 0
    else Min(good, failAt.value - done - 1)
  }

  predicate SendsAll(failAt: Option<nat>, done: nat, feed: seq<AgentRow>) {
    FeedDecodable(feed) && (failAt.None? || failAt.value < done || done + |feed| < failAt.value)
  }

  /** A pass stops after `i` publications: at a row that cannot be decoded, or at the operation that raises. */
  lemma StopsAfter(failAt: Option<nat>, rows: seq<OutboxRow>, i: nat)
    requires i <= |rows| && AllDecodable(rows[..i])
    requires (i < |rows| && !rows[i].decodable && (failAt.None? || 2 * i < failAt.value))
      || (failAt.Some? && failAt.value / 2 == i && failAt.value < 2 * |rows| + 2)
    ensures PublishedUpTo(failAt, |Good(rows)|) == i && !Commits(failAt, rows)
  {
    GoodAtLeast(rows, i);
  }

  lemma {:induction false} GoodAtLeast(rows: seq<OutboxRow>, i: nat)
    requires i <= |rows| && AllDecodable(rows[..i])
    ensures i <= |Good(rows)| && (i < |rows| && !rows[i].decodable ==> i == |Good(rows)| && !AllDecodable(rows))
    ensures i == |rows| ==> i == |Good(rows)| && AllDecodable(rows)
  {
    if i < |rows| && !rows[i].decodable {
      GoodIs(rows, i);
    }
    forall j | 0 <= j < i ensures rows[j].decodable {
      assert rows[..i][j] == rows[j];
    }
    assert rows[..|rows|] == rows;
  }

  lemma GoesThrough(failAt: Option<nat>, rows: seq<OutboxRow>)
    requires AllDecodable(rows) && (failAt.None? || 2 * |rows| + 2 <= failAt.value)
    ensures PublishedUpTo(failAt, |Good(rows)|) == |rows| && Commits(failAt, rows)
  {
    assert rows[..|rows|] == rows;
    GoodAtLeast(rows, |rows|);
  }

  /** The same for the sends. */
  lemma FeedStopsAfter(failAt: Option<nat>, done: nat, feed: seq<AgentRow>, i: nat)
    requires i <= |feed| && FeedDecodable(feed[..i])
    requires (i < |feed| && !feed[i].decodable && (failAt.None? || failAt.value < done || done + 1 + i <= failAt.value))
      || (failAt == Some(done + 1 + i) && i < |feed|) || (i == 0 && failAt == Some(done))
    ensures SentAfter(failAt, done, |GoodFeed(feed)|) == i && !SendsAll(failAt, done, feed)
  {
    FeedAtLeast(feed, i);
  }

  lemma {:induction false} FeedAtLeast(feed: seq<AgentRow>, i: nat)
    requires i <= |feed| && FeedDecodable(feed[..i])
    ensures i <= |GoodFeed(feed)| && (i < |feed| && !feed[i].decodable ==> i == |GoodFeed(feed)| && !FeedDecodable(feed))
    ensures i == |feed| ==> i == |GoodFeed(feed)| && FeedDecodable(feed)
  {
    if i < |feed| && !feed[i].decodable {
      GoodFeedIs(feed, i);
    }
    forall j | 0 <= j < i ensures feed[j].decodable {
      assert feed[..i][j] == feed[j];
    }
    assert feed[..|feed|] == feed;
  }

  lemma FeedGoesThrough(failAt: Option<nat>, done: nat, feed: seq<AgentRow>)
    requires FeedDecodable(feed) && (failAt.None? || failAt.value < done || done + |feed| < failAt.value)
    ensures SentAfter(failAt, done, |GoodFeed(feed)|) == |feed| && SendsAll(failAt, done, feed)
  {
    assert feed[..|feed|] == feed;
    FeedAtLeast(feed, |feed|);
  }

  /** What a pass leaves behind that selected these rows and would select this feed. */
  ghost predicate Left(
      s: Relay, t: Relay, delivered: Option<nat>, failAt: Option<nat>, rows: seq<OutboxRow>, feed: seq<AgentRow>) {
    var second := 2 * |rows| + 2;
    && t.agents == s.agents
    && t.outbox == (if Commits(failAt, rows) then MarkDelivered(s.outbox, Ids(rows)) else s.outbox)
    && t.stream == s.stream + OutboxEvents(rows[..PublishedUpTo(failAt, |Good(rows)|)]) +
         AgentEvents(feed[..if Commits(failAt, rows) then SentAfter(failAt, second, |GoodFeed(feed)|) else 0])
    && delivered == (if Commits(failAt, rows) && SendsAll(failAt, second, feed) then Some(|rows|) else None)
    && t.cursor == if delivered.Some? then CursorAfter(s.cursor, feed) else s.cursor
  }

  lemma LeftIsOutcome(s: Relay, t: Relay, delivered: Option<nat>, failAt: Option<nat>, batch: nat, d: nat, c: nat)
    requires At(s, d, c)
    requires Left(s, t, delivered, failAt, SelectUndelivered(s.outbox, batch), SelectAgentEvents(s.agents, s.cursor, batch))
    ensures Outcome(s, t, delivered, failAt, batch, d, c)
  {
    hide At, SelectUndelivered, SelectAgentEvents, MarkDelivered, CursorAfter, Ids, Left, OutcomeOf, Min;
    Selected(s, batch, d, c);
    LeftFrom(s, t, delivered, failAt, d,
      SelectUndelivered(s.outbox, batch), SelectAgentEvents(s.agents, s.cursor, batch));
  }

  /** What a pass selects from there, what marking it does, and where its feed leads the cursor. */
  lemma Selected(s: Relay, batch: nat, d: nat, c: nat)
    requires At(s, d, c)
    ensures d <= |s.outbox| && c <= |s.agents|
    ensures SelectUndelivered(s.outbox, batch) == s.outbox[d..Min(|s.outbox|, d + batch)]
    ensures SelectAgentEvents(s.agents, s.cursor, batch) == s.agents[c..Min(|s.agents|, c + batch)]
    ensures var feed := SelectAgentEvents(s.agents, s.cursor, batch);
      CursorAfter(s.cursor, feed) == if feed == [] then s.cursor else feed[|feed| - 1].id
    ensures var rows := SelectUndelivered(s.outbox, batch);
      forall i :: 0 <= i < |s.outbox| ==>
        MarkDelivered(s.outbox, Ids(rows))[i]
          == if d <= i < d + |rows| then s.outbox[i].(delivered := true) else s.outbox[i]
  {
    hide SelectUndelivered, SelectAgentEvents, MarkDelivered, CursorAfter, Ids, FeedAt, IdOrdered;
    NextRows(s.outbox, d, batch);
    NextFeed(s.agents, s.cursor, c, batch);
    FeedBound(s.agents, s.cursor, c);
    CursorIsLast(s.agents, s.cursor, c, Min(|s.agents|, c + batch));
    NextMarked(s.outbox, d, Min(|s.outbox|, d + batch));
  }

  lemma FeedBound(agents: seq<AgentRow>, cursor: int, c: nat)
    requires FeedAt(agents, cursor, c)
    ensures c <= |agents|
  {
  }

  lemma LeftFrom(
      s: Relay, t: Relay, delivered: Option<nat>, failAt: Option<nat>, d: nat, rows: seq<OutboxRow>, feed: seq<AgentRow>)
    requires Left(s, t, delivered, failAt, rows, feed)
    requires CursorAfter(s.cursor, feed) == if feed == [] then s.cursor else feed[|feed| - 1].id
    requires forall i :: 0 <= i < |s.outbox| ==>
      MarkDelivered(s.outbox, Ids(rows))[i] == if d <= i < d + |rows| then s.outbox[i].(delivered := true) else s.outbox[i]
    ensures OutcomeOf(s, t, delivered, failAt, d, rows, feed)
  {
    hide MarkDelivered, Ids, Good, GoodFeed, AllDecodable, FeedDecodable, OutboxEvents, AgentEvents, CursorAfter;
  }

  /** With no fault injected that is the clean pass. */
  lemma CleanLeft(s: Relay, t: Relay, delivered: Option<nat>, batch: nat)
    requires Left(s, t, delivered, None, SelectUndelivered(s.outbox, batch), SelectAgentEvents(s.agents, s.cursor, batch))
    ensures t.outbox == CleanPass(s.outbox, batch)
    ensures t.stream == s.stream + Sent(s.outbox, s.agents, s.cursor, batch)
    ensures delivered.Some? <==> Ends(s.outbox, s.agents, s.cursor, batch)
  {
    hide SelectUndelivered, SelectAgentEvents, MarkDelivered, Ids, CursorAfter;
    var rows, feed := SelectUndelivered(s.outbox, batch), SelectAgentEvents(s.agents, s.cursor, batch);
    AppendTwice(s.stream, OutboxEvents(Good(rows)), if AllDecodable(rows) then AgentEvents(GoodFeed(feed)) else []);
  }

  lemma AppendTwice(a: seq<Event>, b: seq<Event>, c: seq<Event>)
    ensures a + (b + c) == a + b + c
  {
  }

  predicate NoFaults(faults: seq<Option<nat>>) {
    forall i :: 0 <= i < |faults| ==> faults[i].None?
  }

  class Relayer {
    var outbox: seq<OutboxRow>
    var agentEvents: seq<AgentRow>
    var agentCursor: int
    var stream: seq<Event>  // every call made to the broker's publish, in order
    ghost var failedPasses: nat

    ghost function State(): Relay
      reads this
    {
      Relay(outbox, agentEvents, agentCursor, Idle, stream, failedPasses)
    }

    /**
     One pass.  `failAt` names the external operation that raises, counting the
     two selects, each publish, each mark and the commit; None means no fault
     is injected.  The result is None when the pass raised.
     */
    method RelayOnce(batch: nat, failAt: Option<nat>) returns (delivered: Option<nat>)
      modifies this
      ensures exists steps :: Runs(old(State()), steps, batch, State())
      ensures Left(old(State()), State(), delivered, failAt,
        SelectUndelivered(old(outbox), batch), SelectAgentEvents(old(agentEvents), old(agentCursor), batch))
      ensures failedPasses == old(failedPasses) + if delivered.Some? then 0 else 1
    {
      hide CleanPass, SelectUndelivered, SelectAgentEvents, FeedDecodable, MarkDelivered, AllDecodable, Ids, Runs;
      hide CursorAfter, OutboxEvents, AgentEvents, Good, GoodFeed, Commits, PublishedUpTo, SentAfter, SendsAll;
      ghost var start := State();
      ghost var steps: seq<Step> := [Begin];
      ghost var now := Apply(start, Begin, batch);
      var ops := 0;
      var rows := SelectUndelivered(outbox, batch);
      BeginRuns(start, batch);
      NoneYet(rows);
      var marked: set<int> := {};
      var i := 0;
      if failAt == Some(ops) {
        StopsAfter(failAt, rows, 0);
        GiveUp(start, steps, batch, now);
        return None;
      }
      ops := ops + 1;
      while i < |rows|
        invariant 0 <= i <= |rows| && ops == 2 * i + 1 && (failAt.None? || ops <= failAt.value)
        invariant outbox == start.outbox && agentEvents == start.agents && agentCursor == start.cursor
        invariant failedPasses == start.failedPasses
        invariant AllDecodable(rows[..i])
        invariant stream == start.stream + OutboxEvents(rows[..i])
        invariant marked == Ids(rows[..i])
        invariant now == start.(phase := Draining(rows, i, i), stream := stream)
        invariant Runs(start, steps, batch, now)
      {
        DecodableNext(rows, i);
        IdsNext(rows, i);
        EventsNext(rows, i);
        if !rows[i].decodable || failAt == Some(ops) {
          StopsAfter(failAt, rows, i);
          GiveUp(start, steps, batch, now);
          return None;
        }
        stream := stream + [OutboxEvent(rows[i])];
        RunsExtend(start, steps, batch, now, Publish);
        steps, now := steps + [Publish], Apply(now, Publish, batch);
        ops := ops + 1;
        if failAt == Some(ops) {
          StopsAfter(failAt, rows, i + 1);
          GiveUp(start, steps, batch, now);
          return None;
        }
        marked := marked + {rows[i].id};
        RunsExtend(start, steps, batch, now, Mark);
        steps, now := steps + [Mark], Apply(now, Mark, batch);
        ops := ops + 1;
        i := i + 1;
      }
      assert rows[..i] == rows;
      if failAt == Some(ops) {
        StopsAfter(failAt, rows, i);
        GiveUp(start, steps, batch, now);
        return None;
      }
      GoesThrough(failAt, rows);
      outbox := MarkDelivered(outbox, marked);
      RunsExtend(start, steps, batch, now, Commit);
      steps, now := steps + [Commit], Apply(now, Commit, batch);
      ops := ops + 1;
      var ok := TailFeed(batch, failAt, ops, start, steps, now);
      delivered := if ok then Some(|rows|) else None;
    }

    /** The exception leaves the pass: nothing since the last commit is kept, publications are. */
    ghost method GiveUp(start: Relay, steps: seq<Step>, batch: nat, now: Relay)
      requires Runs(start, steps, batch, now) && !now.phase.Idle?
      requires now == State().(phase := now.phase)
      modifies this`failedPasses
      ensures Runs(start, steps + [Fail], batch, State())
      ensures failedPasses == old(failedPasses) + 1
    {
      RunsExtend(start, steps, batch, now, Fail);
      failedPasses := failedPasses + 1;
    }

    /** The agent-event half of the pass; the cursor moves only when every event went out. */
    method TailFeed(batch: nat, failAt: Option<nat>, opsDone: nat,
        ghost start: Relay, ghost before: seq<Step>, ghost committed: Relay)
      returns (ok: bool)
      requires Runs(start, before, batch, committed)
      requires committed == State().(phase := Committed)
      modifies this`agentCursor, this`stream, this`failedPasses
      ensures exists steps :: Runs(start, steps, batch, State())
      ensures CursorMoves(ok, old(agentCursor), agentEvents, batch, agentCursor)
      ensures failedPasses == old(failedPasses) + if ok then 0 else 1
      ensures var feed := SelectAgentEvents(agentEvents, old(agentCursor), batch);
        && (ok <==> SendsAll(failAt, opsDone, feed))
        && stream == old(stream) + AgentEvents(feed[..SentAfter(failAt, opsDone, |GoodFeed(feed)|)])
    {
      hide FeedDecodable, SelectAgentEvents, Runs, CursorAfter, AgentEvents, GoodFeed, SendsAll, SentAfter;
      ghost var steps, now := before, committed;
      var ops := opsDone;
      var feed := SelectAgentEvents(agentEvents, agentCursor, batch);
      NothingFedYet(feed, agentCursor);
      if failAt == Some(ops) {
        FeedStopsAfter(failAt, opsDone, feed, 0);
        GiveUp(start, steps, batch, now);
        return false;
      }
      RunsExtend(start, steps, batch, now, SelectFeed);
      steps, now := steps + [SelectFeed], Apply(now, SelectFeed, batch);
      ops := ops + 1;
      var cursor := agentCursor;
      var i := 0;
      while i < |feed|
        invariant 0 <= i <= |feed| && ops == opsDone + 1 + i
        invariant failAt.None? || failAt.value < opsDone || ops <= failAt.value
        invariant agentCursor == committed.cursor && failedPasses == committed.failedPasses
        invariant FeedDecodable(feed[..i]) && cursor == CursorAfter(committed.cursor, feed[..i])
        invariant stream == committed.stream + AgentEvents(feed[..i])
        invariant now == committed.(phase := Tailing(feed, i, cursor), stream := stream)
        invariant Runs(start, steps, batch, now)
      {
        FeedDecodableNext(feed, i);
        CursorNext(committed.cursor, feed, i);
        FeedEventsNext(feed, i);
        if !feed[i].decodable || failAt == Some(ops) {
          FeedStopsAfter(failAt, opsDone, feed, i);
          GiveUp(start, steps, batch, now);
          return false;
        }
        cursor := Max(cursor, feed[i].id);
        stream := stream + [AgentEvent(feed[i])];
        RunsExtend(start, steps, batch, now, Send);
        steps, now := steps + [Send], Apply(now, Send, batch);
        ops := ops + 1;
        i := i + 1;
      }
      assert feed[..i] == feed;
      FeedGoesThrough(failAt, opsDone, feed);
      RunsExtend(start, steps, batch, now, Finish);
      agentCursor := cursor;
      assert State() == Apply(now, Finish, batch);
      ok := true;
    }

    /** An application transaction adds a row; the table refuses an id or event id it has seen. */
    method InsertRow(row: OutboxRow) returns (inserted: bool)
      modifies this`outbox
      ensures inserted <==>
        !row.delivered && 0 < row.id && forall r <- old(outbox) :: r.id < row.id && r.eventId != row.eventId
      ensures outbox == if inserted then old(outbox) + [row] else old(outbox)
    {
      inserted := !row.delivered && 0 < row.id && forall r <- outbox :: r.id < row.id && r.eventId != row.eventId;
      if inserted {
        outbox := outbox + [row];
      }
    }

    method InsertAgentEvent(row: AgentRow) returns (inserted: bool)
      modifies this`agentEvents
      ensures inserted <==> 0 < row.id && forall r <- old(agentEvents) :: r.id < row.id && r.eventId != row.eventId
      ensures agentEvents == if inserted then old(agentEvents) + [row] else old(agentEvents)
    {
      inserted := 0 < row.id && forall r <- agentEvents :: r.id < row.id && r.eventId != row.eventId;
      if inserted {
        agentEvents := agentEvents + [row];
      }
    }

    /** What the application adds while the relay sleeps. */
    method Arrive(arrival: Arrival, batch: nat)
      modifies this`outbox, this`agentEvents
      ensures exists steps :: Runs(old(State()), steps, batch, State())
      ensures outbox == Added(old(outbox), arrival.rows)
      ensures agentEvents == AddedAgents(old(agentEvents), arrival.agents)
    {
      ghost var start := State();
      ghost var steps: seq<Step> := [];
      for i := 0 to |arrival.rows|
        invariant Runs(start, steps, batch, State())
        invariant outbox == Added(start.outbox, arrival.rows[..i]) && agentEvents == start.agents
      {
        ghost var before := State();
        assert arrival.rows[..i + 1][..i] == arrival.rows[..i];
        var inserted := InsertRow(arrival.rows[i]);
        if inserted {
          RunsExtend(start, steps, batch, before, AppendRow(arrival.rows[i]));
          steps := steps + [AppendRow(arrival.rows[i])];
        }
      }
      assert arrival.rows[..|arrival.rows|] == arrival.rows && arrival.agents[..0] == [];
      for i := 0 to |arrival.agents|
        invariant Runs(start, steps, batch, State())
        invariant outbox == Added(start.outbox, arrival.rows)
        invariant agentEvents == AddedAgents(start.agents, arrival.agents[..i])
      {
        ghost var before := State();
        assert arrival.agents[..i + 1][..i] == arrival.agents[..i];
        var inserted := InsertAgentEvent(arrival.agents[i]);
        if inserted {
          RunsExtend(start, steps, batch, before, AppendAgent(arrival.agents[i]));
          steps := steps + [AppendAgent(arrival.agents[i])];
        }
      }
      assert arrival.agents[..|arrival.agents|] == arrival.agents;
    }

    ghost function Ledger(): Ledger
      reads this
    {
      Book(outbox, agentEvents, agentCursor, stream)
    }

    /**
     The thread body: one pass per entry of `faults`, until told to stop, with
     new rows arriving in between.  A pass that raised is logged and the loop
     goes on with the same cursor.
     */
    method RunOutboxRelay(batch: nat, faults: seq<Option<nat>>, arrivals: seq<Arrival>)
      requires |arrivals| == |faults|
      modifies this
      ensures exists steps :: Runs(old(State()), steps, batch, State())
      ensures NoFaults(faults) ==> Ledger() == Rounds(old(Ledger()), arrivals, batch)
    {
      hide Runs, NoFaults, Rounds, Round;
      ghost var start := State();
      ghost var book := Ledger();
      CleanStart(start, faults, batch);
      RoundsStart(book, arrivals, batch);
      ghost var steps: seq<Step> := [];
      var i := 0;
      while i < |faults|
        invariant 0 <= i <= |faults|
        invariant Runs(start, steps, batch, State())
        invariant NoFaults(faults[..i]) ==> Ledger() == Rounds(book, arrivals[..i], batch)
      {
        ghost var before, page := State(), Ledger();
        Arrive(arrivals[i], batch);
        ghost var added :| Runs(before, added, batch, State());
        RunsConcat(start, steps, batch, before, added, State());
        steps := steps + added;
        ghost var ready := State();
        var delivered := RelayOnce(batch, faults[i]);
        if faults[i].None? {
          CleanLeft(ready, State(), delivered, batch);
        }
        ghost var pass :| Runs(ready, pass, batch, State());
        RunsConcat(start, steps, batch, ready, pass, State());
        steps := steps + pass;
        CleanNext(faults, i);
        RoundsNext(book, arrivals, batch, i);
        RoundIs(page, arrivals[i], batch, Ledger());
        i := i + 1;
      }
      assert faults[..i] == faults && arrivals[..i] == arrivals;
    }
  }
}
