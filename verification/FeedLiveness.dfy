/**
 How fast the agent feed drains, and exactly when it does.  The feed is only read
 after the outbox half of a pass, so an undecodable outbox row holds it up too.
 */
module FeedLiveness {
  import opened RelayProtocol
  import opened RelaySafety
  import opened OutboxRelay
  import opened RelayLiveness

  predicate FeedDecodableFrom(agents: seq<AgentRow>, from: nat) {
    forall i :: from <= i < |agents| ==> agents[i].decodable
  }

  predicate Passed(agents: seq<AgentRow>, cursor: int) {
    forall i :: 0 <= i < |agents| ==> agents[i].id <= cursor
  }

  /** Every feed and cursor the protocol can reach are in such a position, so what follows applies to them. */
  lemma ReachableFeed(steps: seq<Step>, batch: nat, t: Relay)
    requires Runs(Empty, steps, batch, t)
    ensures FeedAt(t.agents, t.cursor, PassedCount(t.agents, t.cursor))
  {
    EmptyHolds(batch);
    RunsKeep(Empty, steps, batch, t);
  }

  /** A new process has passed none of the feed, whatever the old one had sent: all of it is read again. */
  lemma RestartRereads(steps: seq<Step>, batch: nat, t: Relay)
    requires Runs(Empty, steps, batch, t)
    ensures FeedAt(t.agents, Apply(t, Restart, batch).cursor, 0)
  {
    EmptyHolds(batch);
    RunsKeep(Empty, steps, batch, t);
  }

  // ------------------------------------------------- passes the outbox allows

  /** How many undelivered rows lie in front of the first that cannot be decoded. */
  function Leading(rows: seq<OutboxRow>, d: nat): nat
    requires d <= |rows|
  {
    |Good(rows[d..])|
  }

  /** How many of the first `n` passes get through their outbox half. */
  function Through(rows: seq<OutboxRow>, d: nat, batch: nat, n: nat): nat
    requires d <= |rows| && 0 < batch
  {
    if DecodableFrom(rows, d, |rows|) then n else Min(n, Leading(rows, d) / batch)
  }

  lemma LeadingIs(rows: seq<OutboxRow>, d: nat)
    requires d <= |rows| && !DecodableFrom(rows, d, |rows|)
    ensures var bad := Leading(rows, d);
      d + bad < |rows| && DecodableFrom(rows, d, d + bad) && !rows[d + bad].decodable
  {
    var rest := rows[d..];
    assert forall i :: d <= i < |rows| ==> rest[i - d] == rows[i];
  }

  lemma WithinQuotient(n: nat, bad: nat, batch: nat)
    requires 0 < batch
    ensures Min(n, bad / batch) * batch + batch <= bad <==> n < bad / batch
  {
    var q := bad / batch;
    assert q * batch <= bad < q * batch + batch;
    if n < q {
      MulMonotone(n + 1, q, batch);
      MulStep(n + 1, batch);
    }
  }

  /** Pass `n` gets through its outbox half exactly when it is one of the first `Through`. */
  lemma ThroughIff(rows: seq<OutboxRow>, d: nat, batch: nat, n: nat)
    requires Table(rows, d) && 0 < batch
    ensures AllDecodable(SelectUndelivered(Passes(rows, batch, n), batch))
      <==> Through(rows, d, batch, n + 1) == Through(rows, d, batch, n) + 1
  {
    hide Table, Passes;
    var before := Passes(rows, batch, n);
    PassesSame(rows, batch, n);
    TableFits(rows, d);
    if DecodableFrom(rows, d, |rows|) {
      Progress(rows, d, batch, n);
      ChosenDecodable(rows, before, Min(|rows|, d + n * batch), batch);
    } else {
      var bad := Leading(rows, d);
      LeadingIs(rows, d);
      StuckAt(rows, d, batch, bad, n);
      WholeBatches(n, bad, batch);
      WithinQuotient(n, bad, batch);
      ChosenDecodable(rows, before, d + Whole(n, bad, batch), batch);
      StopsAt(rows, d, d + Whole(n, bad, batch), bad, batch);
    }
  }

  lemma TableFits(rows: seq<OutboxRow>, d: nat)
    requires Table(rows, d)
    ensures d <= |rows|
  {
  }

  lemma ChosenDecodable(rows: seq<OutboxRow>, before: seq<OutboxRow>, at: nat, batch: nat)
    requires SameRows(rows, before) && Table(before, at)
    ensures at <= |rows|
    ensures AllDecodable(SelectUndelivered(before, batch)) <==> DecodableFrom(rows, at, Min(|rows|, at + batch))
  {
    NextRows(before, at, batch);
    SliceDecodable(before, at, Min(|rows|, at + batch));
    SameDecodable(rows, before, at, Min(|rows|, at + batch));
  }

  lemma StopsAt(rows: seq<OutboxRow>, d: nat, at: nat, bad: nat, batch: nat)
    requires d <= at <= d + bad < |rows| && DecodableFrom(rows, d, d + bad) && !rows[d + bad].decodable
    ensures DecodableFrom(rows, at, Min(|rows|, at + batch)) <==> at + batch <= d + bad
  {
  }

  // ----------------------------------------------------------------- the feed

  lemma CursorReaches(agents: seq<AgentRow>, cursor: int, c: nat, batch: nat)
    requires FeedAt(agents, cursor, c)
    ensures FeedAt(agents, CursorAfter(cursor, SelectAgentEvents(agents, cursor, batch)), Min(|agents|, c + batch))
  {
    NextFeed(agents, cursor, c, batch);
    CursorIsLast(agents, cursor, c, Min(|agents|, c + batch));
  }

  /** One more pass moves a decodable feed on by a batch if the outbox lets it through, and not at all otherwise. */
  lemma FeedPass(
      rows: seq<OutboxRow>, d: nat, agents: seq<AgentRow>, cursor: int, c: nat, batch: nat, n: nat, at: nat)
    requires Table(rows, d) && 0 < batch && FeedDecodableFrom(agents, c) && c <= at
    requires FeedAt(agents, CursorPasses(rows, agents, cursor, batch, n), at)
    ensures FeedAt(agents, CursorPasses(rows, agents, cursor, batch, n + 1),
      if Through(rows, d, batch, n + 1) == Through(rows, d, batch, n) + 1 then Min(|agents|, at + batch) else at)
  {
    hide Passes, Through, Table, SelectUndelivered, SelectAgentEvents, CursorAfter, CursorPasses;
    var before := CursorPasses(rows, agents, cursor, batch, n);
    ThroughFits(rows, d);
    ThroughIff(rows, d, batch, n);
    CursorPassesNext(rows, agents, cursor, batch, n);
    CursorReaches(agents, before, at, batch);
    NextFeed(agents, before, at, batch);
    assert FeedDecodable(agents[at..Min(|agents|, at + batch)]);
  }

  lemma ThroughFits(rows: seq<OutboxRow>, d: nat)
    requires Table(rows, d)
    ensures d <= |rows|
  {
  }

  /** Where `n` passes of a batch each lead from `c`, at most to the end. */
  function Reach(agents: seq<AgentRow>, c: nat, n: nat, batch: nat): nat {
    Min(|agents|, c + n * batch)
  }

  lemma ReachNext(agents: seq<AgentRow>, c: nat, n: nat, batch: nat)
    requires c <= |agents|
    ensures Reach(agents, c, 0, batch) == c <= Reach(agents, c, n, batch)
    ensures Reach(agents, c, n + 1, batch) == Min(|agents|, Reach(agents, c, n, batch) + batch)
  {
    MulStep(n + 1, batch);
  }

  lemma {:induction false} FeedProgress(
      rows: seq<OutboxRow>, d: nat, agents: seq<AgentRow>, cursor: int, c: nat, batch: nat, n: nat)
    requires Table(rows, d) && 0 < batch && FeedAt(agents, cursor, c) && FeedDecodableFrom(agents, c)
    ensures d <= |rows|
    ensures FeedAt(agents, CursorPasses(rows, agents, cursor, batch, n),
      Reach(agents, c, Through(rows, d, batch, n), batch))
  {
    hide Table, FeedAt, FeedDecodableFrom, Through, CursorPasses, Reach;
    TableFits(rows, d);
    FeedFits(agents, cursor, c);
    if n == 0 {
      NoPasses(rows, d, agents, cursor, batch);
      ReachNext(agents, c, 0, batch);
    } else {
      FeedProgress(rows, d, agents, cursor, c, batch, n - 1);
      var t := Through(rows, d, batch, n - 1);
      ReachNext(agents, c, t, batch);
      FeedPass(rows, d, agents, cursor, c, batch, n - 1, Reach(agents, c, t, batch));
      ThroughNext(rows, d, batch, n - 1);
    }
  }

  lemma NoPasses(rows: seq<OutboxRow>, d: nat, agents: seq<AgentRow>, cursor: int, batch: nat)
    requires d <= |rows| && 0 < batch
    ensures Through(rows, d, batch, 0) == 0 && CursorPasses(rows, agents, cursor, batch, 0) == cursor
  {
  }

  lemma ThroughNext(rows: seq<OutboxRow>, d: nat, batch: nat, n: nat)
    requires d <= |rows| && 0 < batch
    ensures Through(rows, d, batch, n) <= Through(rows, d, batch, n + 1) <= Through(rows, d, batch, n) + 1
  {
  }

  lemma FeedFits(agents: seq<AgentRow>, cursor: int, c: nat)
    requires FeedAt(agents, cursor, c)
    ensures c <= |agents|
  {
  }

  lemma PassedIff(agents: seq<AgentRow>, cursor: int, c: nat)
    requires FeedAt(agents, cursor, c)
    ensures Passed(agents, cursor) <==> c == |agents|
  {
    assert c < |agents| ==> !(agents[c].id <= cursor);
  }

  /**
   A decodable feed of which `c` rows are passed is through after k clean passes
   exactly when ceil((n - c) / batch) of them got through their outbox half.
   */
  lemma FeedDrainsInCeil(
      rows: seq<OutboxRow>, d: nat, agents: seq<AgentRow>, cursor: int, c: nat, batch: nat, k: nat)
    requires Table(rows, d) && 0 < batch && FeedAt(agents, cursor, c) && FeedDecodableFrom(agents, c)
    ensures d <= |rows|
    ensures Passed(agents, CursorPasses(rows, agents, cursor, batch, k))
      <==> CeilDiv(|agents| - c, batch) <= Through(rows, d, batch, k)
  {
    hide FeedAt, Table, CeilDiv, FeedDecodableFrom, Passed;
    FeedFits(agents, cursor, c);
    FeedProgress(rows, d, agents, cursor, c, batch, k);
    var t := Through(rows, d, batch, k);
    PassedIff(agents, CursorPasses(rows, agents, cursor, batch, k), Min(|agents|, c + t * batch));
    CeilDivBound(|agents| - c, batch, t);
  }

  lemma {:induction false} FeedNeverPast(
      rows: seq<OutboxRow>, agents: seq<AgentRow>, cursor: int, c: nat, bad: nat, batch: nat, n: nat) returns (at: nat)
    requires FeedAt(agents, cursor, c) && c <= bad < |agents| && !agents[bad].decodable
    ensures at <= bad && FeedAt(agents, CursorPasses(rows, agents, cursor, batch, n), at)
  {
    hide Passes, SelectUndelivered, SelectAgentEvents, CursorAfter, FeedAt;
    if n == 0 {
      at := c;
    } else {
      var before := CursorPasses(rows, agents, cursor, batch, n - 1);
      var was := FeedNeverPast(rows, agents, cursor, c, bad, batch, n - 1);
      var next := Min(|agents|, was + batch);
      NextFeed(agents, before, was, batch);
      CursorReaches(agents, before, was, batch);
      if Ends(Passes(rows, batch, n - 1), agents, before, batch) {
        forall i | was <= i < next ensures agents[i].decodable {
          assert agents[was..next][i - was] == agents[i];
        }
        at := next;
      } else {
        at := was;
      }
    }
  }

  /** The outbox half lets that many passes through. */
  predicate Enough(rows: seq<OutboxRow>, d: nat, batch: nat, need: nat)
    requires d <= |rows| && 0 < batch
  {
    DecodableFrom(rows, d, |rows|) || need <= Leading(rows, d) / batch
  }

  lemma EnoughIff(rows: seq<OutboxRow>, d: nat, batch: nat, need: nat)
    requires d <= |rows| && 0 < batch
    ensures Enough(rows, d, batch, need) <==> need <= Through(rows, d, batch, need)
    ensures (exists k :: need <= Through(rows, d, batch, k)) ==> Enough(rows, d, batch, need)
  {
  }

  /**
   The feed is ever through if and only if all that is left of it decodes and the
   outbox lets enough passes through: all of it decodes, or whole batches in front
   of its first undecodable row are at least as many as the feed needs.
   */
  lemma FeedDrainsIff(rows: seq<OutboxRow>, d: nat, agents: seq<AgentRow>, cursor: int, c: nat, batch: nat)
    requires Table(rows, d) && 0 < batch && FeedAt(agents, cursor, c)
    ensures d <= |rows|
    ensures (exists k :: Passed(agents, CursorPasses(rows, agents, cursor, batch, k)))
      <==> FeedDecodableFrom(agents, c) && Enough(rows, d, batch, CeilDiv(|agents| - c, batch))
  {
    hide FeedAt, Table, CeilDiv, Passed, Enough;
    TableFits(rows, d);
    FeedFits(agents, cursor, c);
    if FeedDecodableFrom(agents, c) {
      var need := CeilDiv(|agents| - c, batch);
      forall k: nat
        ensures Passed(agents, CursorPasses(rows, agents, cursor, batch, k)) <==> need <= Through(rows, d, batch, k)
      {
        FeedDrainsInCeil(rows, d, agents, cursor, c, batch, k);
      }
      EnoughIff(rows, d, batch, need);
      if Enough(rows, d, batch, need) {
        assert Passed(agents, CursorPasses(rows, agents, cursor, batch, need));
      }
      if k: nat :| Passed(agents, CursorPasses(rows, agents, cursor, batch, k)) {
        assert need <= Through(rows, d, batch, k);
      }
    } else {
      var bad :| c <= bad < |agents| && !agents[bad].decodable;
      forall k: nat ensures !Passed(agents, CursorPasses(rows, agents, cursor, batch, k)) {
        var at := FeedNeverPast(rows, agents, cursor, c, bad, batch, k);
        PassedIff(agents, CursorPasses(rows, agents, cursor, batch, k), at);
      }
    }
  }
}
