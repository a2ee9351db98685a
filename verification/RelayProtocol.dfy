/**
 The outbox relay as a step-by-step protocol: what the database holds, what has
 been handed to the broker, and where the current pass stands.  Every external
 effect of a pass is one step, so a failure may fall between any two of them.
 */
module RelayProtocol {
  datatype Source = Outbox | AgentFeed | OnLoop

  // What the broker receives: `eventId` is the consumers' deduplication key.
  datatype Event = Event(source: Source, kind: string, eventId: string, body: string)

  // `decodable` says whether the stored payload is a JSON object.
  datatype OutboxRow =
    OutboxRow(id: int, kind: string, eventId: string, payload: string, decodable: bool, delivered: bool)

  datatype AgentRow = AgentRow(id: int, eventId: string, payload: string, decodable: bool)

  function OutboxEvent(row: OutboxRow): Event {
    Event(Outbox, row.kind, row.eventId, row.payload)
  }

  function AgentEvent(row: AgentRow): Event {
    Event(AgentFeed, "agent.event", row.eventId, row.payload)
  }

  function OutboxEvents(rows: seq<OutboxRow>): (events: seq<Event>)
    ensures |events| == |rows|
  {
    seq(|rows|, i requires 0 <= i < |rows| => OutboxEvent(rows[i]))
  }

  function AgentEvents(rows: seq<AgentRow>): (events: seq<Event>)
    ensures |events| == |rows|
  {
    seq(|rows|, i requires 0 <= i < |rows| => AgentEvent(rows[i]))
  }

  /** The undelivered rows, in table (that is, id) order. */
  function Undelivered(rows: seq<OutboxRow>): seq<OutboxRow> {
    if rows == [] then []
    else if rows[0].delivered then Undelivered(rows[1..])
    else [rows[0]] + Undelivered(rows[1..])
  }

  function Take<T>(rows: seq<T>, batch: nat): seq<T> {
    if |rows| <= batch then rows else rows[..batch]
  }

  /** `WHERE delivered_at IS NULL ORDER BY id LIMIT batch`. */
  function SelectUndelivered(rows: seq<OutboxRow>, batch: nat): seq<OutboxRow> {
    Take(Undelivered(rows), batch)
  }

  function After(rows: seq<AgentRow>, cursor: int): seq<AgentRow> {
    if rows == [] then []
    else if rows[0].id <= cursor then After(rows[1..], cursor)
    else [rows[0]] + After(rows[1..], cursor)
  }

  /** `WHERE id > cursor ORDER BY id LIMIT batch`. */
  function SelectAgentEvents(rows: seq<AgentRow>, cursor: int, batch: nat): seq<AgentRow> {
    Take(After(rows, cursor), batch)
  }

  /** The table after the given row ids have been marked and committed. */
  function MarkDelivered(rows: seq<OutboxRow>, ids: set<int>): (marked: seq<OutboxRow>)
    ensures |marked| == |rows|
  {
    seq(|rows|, i requires 0 <= i < |rows| =>
      if rows[i].id in ids then rows[i].(delivered := true) else rows[i])
  }

  function Ids(rows: seq<OutboxRow>): set<int> {
    set row | row in rows :: row.id
  }

  // ---------------------------------------------------------------- states

  // Draining: `published` rows handed to the broker, `marked` of them updated
  // in the open transaction.  Tailing: the agent-event half, after the commit.
  datatype Phase =
    | Idle
    | Draining(rows: seq<OutboxRow>, published: nat, marked: nat)
    | Committed
    | Tailing(feed: seq<AgentRow>, sent: nat, reached: int)

  datatype Relay = Relay(
    outbox: seq<OutboxRow>,
    agents: seq<AgentRow>,
    cursor: int,
    phase: Phase,
    stream: seq<Event>,
    failedPasses: nat)

  datatype Step =
    | AppendRow(row: OutboxRow)
    | AppendAgent(agent: AgentRow)
    | Begin
    | Publish
    | Mark
    | Commit
    | SelectFeed
    | Send
    | Finish
    | Fail
    | Restart

  predicate FreshRow(s: Relay, row: OutboxRow) {
    && !row.delivered
    && 0 < row.id
    && forall r <- s.outbox :: r.id < row.id && r.eventId != row.eventId
  }

  predicate FreshAgent(s: Relay, row: AgentRow) {
    && 0 < row.id
    && forall r <- s.agents :: r.id < row.id && r.eventId != row.eventId
  }

  predicate Enabled(s: Relay, step: Step) {
    match step
    case AppendRow(row) => FreshRow(s, row)
    case AppendAgent(row) => FreshAgent(s, row)
    case Begin => s.phase.Idle?
    case Publish =>
      s.phase.Draining? && s.phase.published == s.phase.marked < |s.phase.rows|
      && s.phase.rows[s.phase.published].decodable
    case Mark => s.phase.Draining? && s.phase.marked < s.phase.published <= |s.phase.rows|
    case Commit => s.phase.Draining? && s.phase.marked == |s.phase.rows|
    case SelectFeed => s.phase.Committed?
    case Send =>
      s.phase.Tailing? && s.phase.sent < |s.phase.feed| && s.phase.feed[s.phase.sent].decodable
    case Finish => s.phase.Tailing? && s.phase.sent == |s.phase.feed|
    case Fail => !s.phase.Idle?
    case Restart => true
  }

  function Max(a: int, b: int): int { if a < b then b else a }

  function Apply(s: Relay, step: Step, batch: nat): Relay
    requires Enabled(s, step)
  {
    match step
    case AppendRow(row) => s.(outbox := s.outbox + [row])
    case AppendAgent(row) => s.(agents := s.agents + [row])
    case Begin => s.(phase := Draining(SelectUndelivered(s.outbox, batch), 0, 0))
    case Publish =>
      s.(stream := s.stream + [OutboxEvent(s.phase.rows[s.phase.published])],
         phase := s.phase.(published := s.phase.published + 1))
    case Mark => s.(phase := s.phase.(marked := s.phase.marked + 1))
    case Commit => s.(outbox := MarkDelivered(s.outbox, Ids(s.phase.rows)), phase := Committed)
    case SelectFeed =>
      s.(phase := Tailing(SelectAgentEvents(s.agents, s.cursor, batch), 0, s.cursor))
    case Send =>
      var row := s.phase.feed[s.phase.sent];
      s.(stream := s.stream + [AgentEvent(row)],
         phase := s.phase.(sent := s.phase.sent + 1, reached := Max(s.phase.reached, row.id)))
    case Finish => s.(cursor := s.phase.reached, phase := Idle)
    // The exception is caught around the whole pass: marks roll back, publications do not.
    case Fail => s.(phase := Idle, failedPasses := s.failedPasses + 1)
    // A new process starts with no open pass and the agent cursor at zero.
    case Restart =>
      s.(phase := Idle, cursor := 0,
         failedPasses := s.failedPasses + if s.phase.Idle? then 0 else 1)
  }

  const Empty: Relay := Relay([], [], 0, Idle, [], 0)

  /** `steps` leads from `s` to `t`, each step enabled where it is taken. */
  predicate Runs(s: Relay, steps: seq<Step>, batch: nat, t: Relay)
    decreases |steps|
  {
    if steps == [] then t == s
    else Enabled(s, steps[0]) && Runs(Apply(s, steps[0], batch), steps[1..], batch, t)
  }

  lemma {:induction false} RunsExtend(s: Relay, steps: seq<Step>, batch: nat, t: Relay, step: Step)
    requires Runs(s, steps, batch, t) && Enabled(t, step)
    ensures Runs(s, steps + [step], batch, Apply(t, step, batch))
    decreases |steps|
  {
    if steps == [] {
      assert (steps + [step])[1..] == [];
    } else {
      RunsExtend(Apply(s, steps[0], batch), steps[1..], batch, t, step);
      assert (steps + [step])[1..] == steps[1..] + [step];
    }
  }

  lemma {:induction false} RunsConcat(
    s: Relay, first: seq<Step>, batch: nat, m: Relay, second: seq<Step>, t: Relay)
    requires Runs(s, first, batch, m) && Runs(m, second, batch, t)
    ensures Runs(s, first + second, batch, t)
    decreases |first|
  {
    if first == [] {
      assert first + second == second;
    } else {
      RunsConcat(Apply(s, first[0], batch), first[1..], batch, m, second, t);
      assert (first + second)[1..] == first[1..] + second;
    }
  }
}
