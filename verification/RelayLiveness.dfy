/**
 How fast the relay drains, and exactly when it does: a row whose payload cannot
 be decoded stops the relay for good at the batch that contains it.
 */
module RelayLiveness {
  import opened RelayProtocol
  import opened RelaySafety
  import opened OutboxRelay

  /** An outbox whose first `d` rows, and no others, are delivered. */
  ghost predicate Table(rows: seq<OutboxRow>, d: nat) {
    IdOrdered(rows) && DeliveredPrefix(rows, d)
  }

  /** Every outbox the protocol can reach is such a table, so what follows applies to it. */
  lemma ReachableIsTable(steps: seq<Step>, batch: nat, t: Relay)
    requires Runs(Empty, steps, batch, t)
    ensures Table(t.outbox, DeliveredCount(t.outbox))
  {
    EmptyHolds(batch);
    RunsKeep(Empty, steps, batch, t);
  }

  predicate DecodableFrom(rows: seq<OutboxRow>, from: nat, to: nat)
    requires to <= |rows|
  {
    forall i :: from <= i < to ==> rows[i].decodable
  }

  /** `MarkDelivered` changes the flag and nothing else. */
  ghost predicate SameRows(rows: seq<OutboxRow>, other: seq<OutboxRow>) {
    |rows| == |other| && forall i :: 0 <= i < |rows| ==> rows[i].decodable == other[i].decodable
  }

  lemma CleanPassSame(rows: seq<OutboxRow>, batch: nat)
    ensures SameRows(rows, CleanPass(rows, batch))
  {
  }

  lemma {:induction false} PassesSame(rows: seq<OutboxRow>, batch: nat, n: nat)
    ensures SameRows(rows, Passes(rows, batch, n))
  {
    if n > 0 {
      PassesSame(rows, batch, n - 1);
      CleanPassSame(Passes(rows, batch, n - 1), batch);
    }
  }

  lemma SameDecodable(rows: seq<OutboxRow>, other: seq<OutboxRow>, from: nat, to: nat)
    requires SameRows(rows, other) && to <= |rows|
    ensures DecodableFrom(rows, from, to) <==> DecodableFrom(other, from, to)
  {
  }

  lemma SliceDecodable(rows: seq<OutboxRow>, from: nat, to: nat)
    requires from <= to <= |rows|
    ensures AllDecodable(rows[from..to]) <==> DecodableFrom(rows, from, to)
  {
    if AllDecodable(rows[from..to]) {
      assert forall i :: from <= i < to ==> rows[i] == rows[from..to][i - from];
    }
  }

  /** One clean pass delivers the next batch if all of it decodes, and nothing otherwise. */
  lemma OnePass(rows: seq<OutboxRow>, d: nat, batch: nat)
    requires Table(rows, d)
    ensures var next := Min(|rows|, d + batch);
      Table(CleanPass(rows, batch), if DecodableFrom(rows, d, next) then next else d)
  {
    var next := Min(|rows|, d + batch);
    NextRows(rows, d, batch);
    SliceDecodable(rows, d, next);
    MarksNext(rows, d, next - d);
    assert d + (next - d) == next;
  }

  lemma MulStep(n: nat, batch: nat)
    requires 0 < n
    ensures n * batch == (n - 1) * batch + batch
  {
  }

  lemma MulMonotone(a: nat, b: nat, c: nat)
    requires a <= b
    ensures a * c <= b * c
  {
  }

  /** With every undelivered row decodable, each pass delivers a full batch. */
  lemma {:induction false} Progress(rows: seq<OutboxRow>, d: nat, batch: nat, n: nat)
    requires Table(rows, d) && DecodableFrom(rows, d, |rows|)
    ensures Table(Passes(rows, batch, n), Min(|rows|, d + n * batch))
  {
    if n > 0 {
      Progress(rows, d, batch, n - 1);
      PassesSame(rows, batch, n - 1);
      MulStep(n, batch);
      ProgressStep(rows, Passes(rows, batch, n - 1), d, d + (n - 1) * batch, batch);
    }
  }

  lemma ProgressStep(rows: seq<OutboxRow>, before: seq<OutboxRow>, d: nat, reach: nat, batch: nat)
    requires SameRows(rows, before) && Table(before, Min(|rows|, reach))
    requires d <= reach && DecodableFrom(rows, d, |rows|)
    ensures Table(CleanPass(before, batch), Min(|rows|, reach + batch))
  {
    var at := Min(|rows|, reach);
    SameDecodable(rows, before, at, Min(|rows|, at + batch));
    OnePass(before, at, batch);
  }

  /** Adding batches one by one for `n` passes, but never past the `bad` leading rows. */
  function Whole(n: nat, bad: nat, batch: nat): (w: nat)
    ensures w <= bad
  {
    if n == 0 then 0
    else
      var w := Whole(n - 1, bad, batch);
      if w + batch <= bad then w + batch else w
  }

  lemma {:induction false} WholeBatches(n: nat, bad: nat, batch: nat)
    requires 0 < batch
    ensures Whole(n, bad, batch) == Min(n, bad / batch) * batch
  {
    var q := bad / batch;
    assert q * batch <= bad < q * batch + batch;
    if n > 0 {
      WholeBatches(n - 1, bad, batch);
      MulStep(n, batch);
      if n <= q {
        MulMonotone(n, q, batch);
      }
    }
  }

  /** A first undecodable row at offset `bad` pins the relay at the last whole batch before it. */
  lemma {:induction false} StuckAt(rows: seq<OutboxRow>, d: nat, batch: nat, bad: nat, n: nat)
    requires Table(rows, d)
    requires d + bad < |rows| && DecodableFrom(rows, d, d + bad) && !rows[d + bad].decodable
    ensures Table(Passes(rows, batch, n), d + Whole(n, bad, batch))
  {
    hide Table, CleanPass, SameRows;
    if n > 0 {
      StuckAt(rows, d, batch, bad, n - 1);
      PassesSame(rows, batch, n - 1);
      StuckStep(rows, Passes(rows, batch, n - 1), d + Whole(n - 1, bad, batch), d, batch, bad);
    }
  }

  lemma StuckStep(rows: seq<OutboxRow>, before: seq<OutboxRow>, at: nat, d: nat, batch: nat, bad: nat)
    requires SameRows(rows, before) && Table(before, at) && d <= at <= d + bad
    requires d + bad < |rows| && DecodableFrom(rows, d, d + bad) && !rows[d + bad].decodable
    ensures Table(CleanPass(before, batch), if at + batch <= d + bad then at + batch else at)
  {
    var next := Min(|rows|, at + batch);
    SameDecodable(rows, before, at, next);
    OnePass(before, at, batch);
  }

  function CeilDiv(n: nat, batch: nat): nat
    requires 0 < batch
  {
    (n + batch - 1) / batch
  }

  lemma CeilDivBound(n: nat, batch: nat, k: nat)
    requires 0 < batch
    ensures n <= k * batch <==> CeilDiv(n, batch) <= k
  {
    var c := CeilDiv(n, batch);
    assert c * batch <= n + batch - 1 < c * batch + batch;
    if c <= k {
      MulMonotone(c, k, batch);
    } else {
      MulMonotone(k + 1, c, batch);
    }
  }

  predicate Drained(rows: seq<OutboxRow>) {
    forall i :: 0 <= i < |rows| ==> rows[i].delivered
  }

  /** `n` decodable undelivered rows are drained after exactly ceil(n / batch) clean passes. */
  lemma DrainsInCeil(rows: seq<OutboxRow>, d: nat, batch: nat, k: nat)
    requires Table(rows, d) && DecodableFrom(rows, d, |rows|) && 0 < batch
    ensures Drained(Passes(rows, batch, k)) <==> CeilDiv(|rows| - d, batch) <= k
  {
    Progress(rows, d, batch, k);
    PassesSame(rows, batch, k);
    CeilDivBound(|rows| - d, batch, k);
    var after := Passes(rows, batch, k);
    var reached := Min(|rows|, d + k * batch);
    if reached < |rows| {
      assert !after[reached].delivered;
    }
  }

  /** The relay ever drains if and only if every undelivered payload can be decoded. */
  lemma DrainsIffDecodable(rows: seq<OutboxRow>, d: nat, batch: nat)
    requires Table(rows, d) && 0 < batch
    ensures (exists k :: Drained(Passes(rows, batch, k))) <==> DecodableFrom(rows, d, |rows|)
  {
    if DecodableFrom(rows, d, |rows|) {
      DrainsInCeil(rows, d, batch, CeilDiv(|rows| - d, batch));
    } else {
      var bad := FirstBad(rows, d);
      forall k: nat
        ensures !Drained(Passes(rows, batch, k))
      {
        StuckAt(rows, d, batch, bad, k);
        PassesSame(rows, batch, k);
        assert !Passes(rows, batch, k)[d + bad].delivered;
      }
    }
  }

  lemma {:induction false} FirstBad(rows: seq<OutboxRow>, from: nat) returns (bad: nat)
    requires from <= |rows| && !DecodableFrom(rows, from, |rows|)
    ensures from + bad < |rows| && DecodableFrom(rows, from, from + bad) && !rows[from + bad].decodable
    decreases |rows| - from
  {
    if !rows[from].decodable {
      bad := 0;
    } else {
      var later := FirstBad(rows, from + 1);
      bad := later + 1;
    }
  }
}
