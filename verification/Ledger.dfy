/** The stored risk snapshots, and the worker that decides which of them to attest on chain. */
module Ledger {
  import opened Collections
  import opened Texts

  /** The figures `publish-risk-snapshot` writes on chain. */
  datatype Figures = Figures(
    riskScoreBps: int,
    healthFactorE4: Option<int>,
    liquidationDistanceBps: Option<int>,
    protocolConcentrationBps: int,
    liquidityScoreBps: int)

  /** A stored snapshot; its id is its index. */
  datatype Row = Row(
    wallet: nat,
    figures: Figures,
    reportHash: string,
    sourceBlock: int,
    observedAt: int,
    onchainTxId: Option<string>,
    onchainSnapshotId: Option<nat>)

  datatype Reason = First | Changed | Interval

  datatype Decision = Publish(reason: Reason) | Unchanged(blocksSinceLast: int, minIntervalBlocks: int)

  function DecideAttestation(candidate: Row, last: Option<Row>, minInterval: nat): Decision {
    if last.None? then Publish(First)
    else if candidate.figures != last.value.figures then Publish(Changed)
    else
      var blocks := candidate.sourceBlock - last.value.sourceBlock;
      if blocks >= minInterval then Publish(Interval) else Unchanged(blocks, minInterval)
  }

  predicate InBps(n: int) { 0 <= n <= 10_000 }

  const LIQUIDATION_DISTANCE_MAX := 10_000

  /** A 32-byte digest in hex. */
  predicate IsDigest(s: string) { |s| == 64 && AllHex(s) }

  /** The checks `publish` makes before it builds a transaction. */
  predicate PublishAccepts(f: Figures, reportHash: string) {
    && IsDigest(reportHash)
    && InBps(f.riskScoreBps)
    && InBps(if f.liquidationDistanceBps.Some? then f.liquidationDistanceBps.value else LIQUIDATION_DISTANCE_MAX)
    && InBps(f.protocolConcentrationBps)
    && InBps(f.liquidityScoreBps)
  }

  predicate Newer(a: Row, b: Row) {
    a.sourceBlock > b.sourceBlock || (a.sourceBlock == b.sourceBlock && a.observedAt > b.observedAt)
  }

  predicate PublishedFor(r: Row, wallet: nat) { r.wallet == wallet && r.onchainTxId.Some? }

  /** The newest published row of a wallet, other than row `except`. */
  function LastPublished(rows: seq<Row>, wallet: nat, except: nat): Option<Row> {
    if rows == [] then None
    else
      var n := |rows| - 1;
      var best := LastPublished(rows[..n], wallet, except);
      if n != except && PublishedFor(rows[n], wallet) && (best.None? || Newer(rows[n], best.value))
      then Some(rows[n]) else best
  }

  datatype JobResult =
    | NotFound
    | Rejected
    | AlreadyPublished(txId: string)
    | Skipped
    | Published(txId: string, reason: Reason)

  function Marked(rows: seq<Row>, id: nat, txId: string): seq<Row>
    requires id < |rows|
  {
    rows[id := rows[id].(onchainTxId := Some(txId))]
  }

  /** One attestation job; `broadcast` is the transaction id the network returned, if it took the transaction. */
  function JobOutcome(rows: seq<Row>, id: nat, minInterval: nat, broadcast: Option<string>): JobResult {
    if id >= |rows| then NotFound
    else if rows[id].onchainTxId.Some? then AlreadyPublished(rows[id].onchainTxId.value)
    else
      var decision := DecideAttestation(rows[id], LastPublished(rows, rows[id].wallet, id), minInterval);
      if decision.Unchanged? then Skipped
      else if !PublishAccepts(rows[id].figures, rows[id].reportHash) || broadcast.None? then Rejected
      else Published(broadcast.value, decision.reason)
  }

  function AfterJob(rows: seq<Row>, id: nat, minInterval: nat, broadcast: Option<string>): seq<Row> {
    var result := JobOutcome(rows, id, minInterval, broadcast);
    if result.Published? then Marked(rows, id, result.txId) else rows
  }

  class SnapshotStore {
    var rows: seq<Row>

    constructor ()
      ensures rows == []
    {
      rows := [];
    }

    method PersistRiskSnapshot(wallet: nat, figures: Figures, reportHash: string, sourceBlock: int, observedAt: int)
      returns (id: nat)
      modifies this
      ensures id == |old(rows)|
      ensures rows == old(rows) + [Row(wallet, figures, reportHash, sourceBlock, observedAt, None, None)]
    {
      id := |rows|;
      rows := rows + [Row(wallet, figures, reportHash, sourceBlock, observedAt, None, None)];
    }

    method MarkRiskSnapshotPublished(id: nat, txId: string)
      requires id < |rows|
      modifies this
      ensures rows == Marked(old(rows), id, txId)
    {
      rows := rows[id := rows[id].(onchainTxId := Some(txId))];
    }

    method FindLastPublished(wallet: nat, except: nat) returns (best: Option<Row>)
      ensures best == LastPublished(rows, wallet, except)
    {
      best := None;
      for i := 0 to |rows|
        invariant best == LastPublished(rows[..i], wallet, except)
      {
        assert rows[..i + 1][..i] == rows[..i];
        if i != except && PublishedFor(rows[i], wallet) && (best.None? || Newer(rows[i], best.value)) {
          best := Some(rows[i]);
        }
      }
      assert rows[..|rows|] == rows;
    }

    /** The attestation worker; a job that throws leaves the store as it was. */
    method Attest(id: nat, minInterval: nat, broadcast: Option<string>) returns (result: JobResult)
      modifies this
      ensures result == JobOutcome(old(rows), id, minInterval, broadcast)
      ensures rows == AfterJob(old(rows), id, minInterval, broadcast)
    {
      if id >= |rows| { return NotFound; }
      var snapshot := rows[id];
      if snapshot.onchainTxId.Some? { return AlreadyPublished(snapshot.onchainTxId.value); }
      var last := FindLastPublished(snapshot.wallet, id);
      var decision := DecideAttestation(snapshot, last, minInterval);
      if decision.Unchanged? { return Skipped; }
      if !PublishAccepts(snapshot.figures, snapshot.reportHash) || broadcast.None? { return Rejected; }
      MarkRiskSnapshotPublished(id, broadcast.value);
      result := Published(broadcast.value, decision.reason);
    }
  }
}
