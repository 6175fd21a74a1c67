/** What attestation costs and how stale it can be, over whole runs of the worker. */
module Attestation {
  import opened Collections
  import opened Rounding
  import opened Positions
  import opened Texts
  import opened Lending
  import opened Stress
  import opened Score
  import opened Ledger

  datatype Event =
    | Persist(wallet: nat, figures: Figures, reportHash: string, sourceBlock: int, observedAt: int)
    | Job(id: nat, broadcast: Option<string>)

  /** One line per job on an existing row. */
  datatype Entry = Entry(wallet: nat, figures: Figures, result: JobResult)

  datatype State = State(rows: seq<Row>, log: seq<Entry>)

  function Step(s: State, e: Event, minInterval: nat): State {
    match e
    case Persist(wallet, figures, reportHash, sourceBlock, observedAt) =>
      s.(rows := s.rows + [Row(wallet, figures, reportHash, sourceBlock, observedAt, None, None)])
    case Job(id, broadcast) =>
      if id >= |s.rows| then s
      else State(AfterJob(s.rows, id, minInterval, broadcast),
                 s.log + [Entry(s.rows[id].wallet, s.rows[id].figures, JobOutcome(s.rows, id, minInterval, broadcast))])
  }

  function Run(events: seq<Event>, minInterval: nat): State {
    if events == [] then State([], [])
    else Step(Run(events[..|events| - 1], minInterval), events[|events| - 1], minInterval)
  }

  function CountOf(wallet: nat, reason: Reason): Entry -> int {
    (e: Entry) => if e.wallet == wallet && e.result.Published? && e.result.reason == reason then 1 else 0
  }

  function PublicationCount(wallet: nat): Entry -> int {
    (e: Entry) => if e.wallet == wallet && e.result.Published? then 1 else 0
  }

  // ----- the published span

  function BlockOf(wallet: nat): Row -> Option<int> {
    (r: Row) => if PublishedFor(r, wallet) then Some(r.sourceBlock) else None
  }

  function NegatedBlockOf(wallet: nat): Row -> Option<int> {
    (r: Row) => if PublishedFor(r, wallet) then Some(-r.sourceBlock) else None
  }

  /** Blocks between a wallet's oldest and newest published snapshots. */
  function Span(rows: seq<Row>, wallet: nat): int {
    var oldest, newest := MinOver(BlockOf(wallet), rows), MinOver(NegatedBlockOf(wallet), rows);
    if oldest.None? || newest.None? then 0 else -newest.value - oldest.value
  }

  lemma {:induction false} LastPublishedSpec(rows: seq<Row>, wallet: nat, except: nat)
    ensures var last := LastPublished(rows, wallet, except);
      && (last.Some? ==> PublishedFor(last.value, wallet) && last.value in rows)
      && (forall i | 0 <= i < |rows| && i != except && PublishedFor(rows[i], wallet) ::
            last.Some? && !Newer(rows[i], last.value))
  {
    if rows != [] {
      var n := |rows| - 1;
      LastPublishedSpec(rows[..n], wallet, except);
      assert rows[n] in rows && forall r | r in rows[..n] :: r in rows;
      forall i | 0 <= i < n && i != except && PublishedFor(rows[i], wallet)
        ensures LastPublished(rows, wallet, except).Some? && !Newer(rows[i], LastPublished(rows, wallet, except).value)
      {
        assert rows[..n][i] == rows[i];
      }
    }
  }

  lemma SpanSpec(rows: seq<Row>, wallet: nat)
    ensures (MinOver(BlockOf(wallet), rows).None? <==> MinOver(NegatedBlockOf(wallet), rows).None?)
    ensures MinOver(BlockOf(wallet), rows).None? <==> forall r | r in rows :: !PublishedFor(r, wallet)
    ensures forall r | r in rows && PublishedFor(r, wallet) ::
      MinOver(BlockOf(wallet), rows).value <= r.sourceBlock <= -MinOver(NegatedBlockOf(wallet), rows).value
    ensures Span(rows, wallet) >= 0
  {
    MinOverSpec(BlockOf(wallet), rows);
    MinOverSpec(NegatedBlockOf(wallet), rows);
  }

  /** Publishing a row widens the span, by a whole interval when that was the reason. */
  lemma PublishingWidens(rows: seq<Row>, id: nat, minInterval: nat, broadcast: Option<string>)
    requires id < |rows| && JobOutcome(rows, id, minInterval, broadcast).Published?
    ensures var result, w := JobOutcome(rows, id, minInterval, broadcast), rows[id].wallet;
      Span(AfterJob(rows, id, minInterval, broadcast), w)
        >= Span(rows, w) + (if result.reason == Interval then minInterval else 0)
  {
    hide LastPublished, MinOver;
    var w, row := rows[id].wallet, rows[id];
    var marked := row.(onchainTxId := broadcast);
    MinOverUpdate(BlockOf(w), rows, id, marked);
    MinOverUpdate(NegatedBlockOf(w), rows, id, marked);
    SpanSpec(rows, w);
    LastPublishedSpec(rows, w, id);
    var last := LastPublished(rows, w, id);
    if last.Some? {
      NewestIsLast(rows, w, id);
    }
  }

  lemma NewestIsLast(rows: seq<Row>, wallet: nat, id: nat)
    requires id < |rows| && rows[id].onchainTxId.None? && LastPublished(rows, wallet, id).Some?
    ensures MinOver(NegatedBlockOf(wallet), rows) == Some(-LastPublished(rows, wallet, id).value.sourceBlock)
  {
    hide LastPublished, MinOver;
    LastPublishedSpec(rows, wallet, id);
    MinOverSpec(NegatedBlockOf(wallet), rows);
    var last := LastPublished(rows, wallet, id).value;
    assert NegatedBlockOf(wallet)(last).Some?;
    var newest :| newest in rows && NegatedBlockOf(wallet)(newest) == MinOver(NegatedBlockOf(wallet), rows);
    var i :| 0 <= i < |rows| && rows[i] == newest;
    assert !Newer(rows[i], last);
  }

  lemma OtherSpansStay(rows: seq<Row>, id: nat, txId: string, wallet: nat)
    requires id < |rows| && rows[id].onchainTxId.None? && rows[id].wallet != wallet
    ensures Span(Marked(rows, id, txId), wallet) == Span(rows, wallet)
  {
    MinOverUpdate(BlockOf(wallet), rows, id, rows[id].(onchainTxId := Some(txId)));
    MinOverUpdate(NegatedBlockOf(wallet), rows, id, rows[id].(onchainTxId := Some(txId)));
  }

  /** In any processing order, a wallet's interval publications are paid for by its published block span. */
  lemma {:induction false} IntervalSpendIsBounded(events: seq<Event>, minInterval: nat, wallet: nat)
    ensures var s := Run(events, minInterval);
      Sum(CountOf(wallet, Interval), s.log) * minInterval <= Span(s.rows, wallet)
  {
    hide MinOver, JobOutcome, Sum;
    if events == [] {
      assert Run(events, minInterval) == State([], []);
      EmptySum(wallet);
      SpanSpec([], wallet);
    } else {
      var before, e := Run(events[..|events| - 1], minInterval), events[|events| - 1];
      IntervalSpendIsBounded(events[..|events| - 1], minInterval, wallet);
      match e {
        case Persist(_, _, _, _, _) => PersistKeepsSpan(before.rows, Step(before, e, minInterval).rows, wallet);
        case Job(id, broadcast) =>
          if id < |before.rows| {
            var after := Step(before, e, minInterval);
            var count := Sum(CountOf(wallet, Interval), before.log);
            LogGrows(CountOf(wallet, Interval), before.log, after.log[|before.log|]);
            var result := JobOutcome(before.rows, id, minInterval, broadcast);
            if result.Published? {
              PublishedRow(before.rows, id, minInterval, broadcast);
              if before.rows[id].wallet == wallet {
                PublishingWidens(before.rows, id, minInterval, broadcast);
                assert (count + 1) * minInterval == count * minInterval + minInterval;
              } else {
                OtherSpansStay(before.rows, id, result.txId, wallet);
              }
            }
          }
      }
    }
  }

  lemma EmptySum(wallet: nat)
    ensures forall f: Entry -> int :: Sum(f, []) == 0
  {
  }

  lemma LogGrows(f: Entry -> int, log: seq<Entry>, e: Entry)
    ensures Sum(f, log + [e]) == Sum(f, log) + f(e)
  {
    assert (log + [e])[..|log|] == log;
  }

  lemma PublishedRow(rows: seq<Row>, id: nat, minInterval: nat, broadcast: Option<string>)
    requires JobOutcome(rows, id, minInterval, broadcast).Published?
    ensures id < |rows| && rows[id].onchainTxId.None?
        && broadcast == Some(JobOutcome(rows, id, minInterval, broadcast).txId)
  {
  }

  lemma PersistKeepsSpan(rows: seq<Row>, more: seq<Row>, wallet: nat)
    requires more != [] && more[..|more| - 1] == rows && more[|more| - 1].onchainTxId.None?
    ensures Span(more, wallet) == Span(rows, wallet)
  {
  }

  // ----- jobs in source-block order

  /** The row is newer than everything else its wallet has published. */
  ghost predicate IsNewest(rows: seq<Row>, id: nat)
    requires id < |rows|
  {
    forall i | 0 <= i < |rows| && i != id && PublishedFor(rows[i], rows[id].wallet) :: Newer(rows[id], rows[i])
  }

  /** Every job ran on a row newer than everything its wallet had published by then. */
  ghost predicate InOrder(events: seq<Event>, minInterval: nat) {
    events == [] ||
    var before, e := events[..|events| - 1], events[|events| - 1];
    && InOrder(before, minInterval)
    && (e.Job? && e.id < |Run(before, minInterval).rows| ==> IsNewest(Run(before, minInterval).rows, e.id))
  }

  function NewestPublished(rows: seq<Row>, wallet: nat): Option<Row> { LastPublished(rows, wallet, |rows|) }

  lemma NewestIs(rows: seq<Row>, id: nat)
    requires id < |rows| && rows[id].onchainTxId.Some? && IsNewest(rows, id)
    ensures NewestPublished(rows, rows[id].wallet) == Some(rows[id])
  {
    hide LastPublished;
    LastPublishedSpec(rows, rows[id].wallet, |rows|);
    var best := LastPublished(rows, rows[id].wallet, |rows|);
    assert best.Some?;
    var i :| 0 <= i < |rows| && rows[i] == best.value;
  }

  lemma {:induction false} ExceptUnpublished(rows: seq<Row>, wallet: nat, id: nat, other: nat)
    requires id < |rows| ==> !PublishedFor(rows[id], wallet)
    requires other >= |rows|
    ensures LastPublished(rows, wallet, id) == LastPublished(rows, wallet, other)
  {
    if rows != [] { ExceptUnpublished(rows[..|rows| - 1], wallet, id, other); }
  }

  predicate Completed(result: JobResult) { result.AlreadyPublished? || result.Skipped? || result.Published? }

  /**
   * After a completed in-order job, the wallet's newest published snapshot carries the figures just
   * processed and lags them by less than max(minInterval, 1) blocks.
   */
  lemma CompletedJobIsFresh(rows: seq<Row>, id: nat, minInterval: nat, broadcast: Option<string>)
    requires id < |rows| && IsNewest(rows, id) && Completed(JobOutcome(rows, id, minInterval, broadcast))
    ensures var after := AfterJob(rows, id, minInterval, broadcast);
      var newest := NewestPublished(after, rows[id].wallet);
      && newest.Some? && newest.value.figures == rows[id].figures
      && 0 <= rows[id].sourceBlock - newest.value.sourceBlock < Max(minInterval, 1)
  {
    hide LastPublished;
    var result := JobOutcome(rows, id, minInterval, broadcast);
    if result.AlreadyPublished? {
      NewestIs(rows, id);
    } else if result.Published? {
      NewestIs(AfterJob(rows, id, minInterval, broadcast), id);
    } else {
      ExceptUnpublished(rows, rows[id].wallet, id, |rows|);
      LastPublishedSpec(rows, rows[id].wallet, id);
      var last := LastPublished(rows, rows[id].wallet, id).value;
      LastPublishedSpec(rows, rows[id].wallet, |rows|);
      var i :| 0 <= i < |rows| && rows[i] == last;
      assert i != id;
    }
  }

  // ----- what an in-order run publishes

  function LastCompleted(log: seq<Entry>, wallet: nat): Option<Figures> {
    if log == [] then None
    else
      var e := log[|log| - 1];
      if e.wallet == wallet && Completed(e.result) then Some(e.figures) else LastCompleted(log[..|log| - 1], wallet)
  }

  /** How often a wallet's completed jobs saw figures other than those of the completed job before. */
  function FigureChanges(log: seq<Entry>, wallet: nat): int {
    if log == [] then 0
    else
      var before, e := log[..|log| - 1], log[|log| - 1];
      var last := LastCompleted(before, wallet);
      FigureChanges(before, wallet)
        + (if e.wallet == wallet && Completed(e.result) && last.Some? && last.value != e.figures then 1 else 0)
  }

  function FiguresOf(r: Option<Row>): Option<Figures> {
    if r.None? then None else Some(r.value.figures)
  }

  lemma NewestUnaffected(rows: seq<Row>, id: nat, txId: string, wallet: nat)
    requires id < |rows| && rows[id].wallet != wallet
    ensures NewestPublished(Marked(rows, id, txId), wallet) == NewestPublished(rows, wallet)
  {
    ExceptUnpublished(rows, wallet, id, |rows|);
    ExceptUnpublished(Marked(rows, id, txId), wallet, id, |rows|);
    SkippingOne(rows, id, Marked(rows, id, txId)[id], wallet);
  }

  lemma {:induction false} SkippingOne(rows: seq<Row>, id: nat, r: Row, wallet: nat)
    requires id < |rows|
    ensures LastPublished(rows[id := r], wallet, id) == LastPublished(rows, wallet, id)
  {
    var n := |rows| - 1;
    if id < n {
      assert rows[id := r][..n] == rows[..n][id := r];
      SkippingOne(rows[..n], id, r, wallet);
    } else {
      assert rows[id := r][..n] == rows[..n];
    }
  }

  lemma NewestAfterPersist(rows: seq<Row>, r: Row, wallet: nat)
    requires r.onchainTxId.None?
    ensures NewestPublished(rows + [r], wallet) == NewestPublished(rows, wallet)
  {
    assert (rows + [r])[..|rows|] == rows;
    ExceptUnpublished(rows, wallet, |rows| + 1, |rows|);
  }

  /** In order, the newest published figures of every wallet are those of its last completed job. */
  lemma {:induction false} NewestMatchesLastCompleted(events: seq<Event>, minInterval: nat, wallet: nat)
    requires InOrder(events, minInterval)
    ensures var s := Run(events, minInterval);
      FiguresOf(NewestPublished(s.rows, wallet)) == LastCompleted(s.log, wallet)
  {
    hide LastPublished, JobOutcome;
    if events == [] {
      NothingYet(wallet);
    } else {
      var before, e := Run(events[..|events| - 1], minInterval), events[|events| - 1];
      NewestMatchesLastCompleted(events[..|events| - 1], minInterval, wallet);
      var after := Step(before, e, minInterval);
      match e {
        case Persist(_, _, _, _, _) => NewestAfterPersist(before.rows, after.rows[|before.rows|], wallet);
        case Job(id, broadcast) =>
          if id < |before.rows| {
            assert after.log[..|before.log|] == before.log;
            var result := JobOutcome(before.rows, id, minInterval, broadcast);
            if before.rows[id].wallet != wallet {
              if result.Published? { NewestUnaffected(before.rows, id, result.txId, wallet); }
            } else if Completed(result) {
              CompletedJobIsFresh(before.rows, id, minInterval, broadcast);
            }
          }
      }
    }
  }

  lemma NothingYet(wallet: nat)
    ensures NewestPublished([], wallet) == None
  {
  }

  lemma {:induction false} CountsByReason(log: seq<Entry>, wallet: nat)
    ensures Sum(PublicationCount(wallet), log)
      == Sum(CountOf(wallet, First), log) + Sum(CountOf(wallet, Changed), log) + Sum(CountOf(wallet, Interval), log)
  {
    if log != [] { CountsByReason(log[..|log| - 1], wallet); }
  }

  /** One first publication at most, and one 'changed' publication per change of figures at most. */
  predicate PaidOnce(log: seq<Entry>, wallet: nat) {
    && Sum(CountOf(wallet, First), log) <= (if LastCompleted(log, wallet).Some? then 1 else 0)
    && Sum(CountOf(wallet, Changed), log) <= FigureChanges(log, wallet)
  }

  lemma EntryIsPaid(log: seq<Entry>, e: Entry, wallet: nat)
    requires PaidOnce(log, wallet)
    requires e.wallet == wallet && e.result.Published? ==>
      && (e.result.reason == First ==> LastCompleted(log, wallet).None?)
      && (e.result.reason == Changed ==>
        LastCompleted(log, wallet).Some? && LastCompleted(log, wallet).value != e.figures)
    ensures PaidOnce(log + [e], wallet)
  {
    hide Sum;
    assert (log + [e])[..|log|] == log;
    LogGrows(CountOf(wallet, First), log, e);
    LogGrows(CountOf(wallet, Changed), log, e);
  }

  /** In an in-order run every first and every 'changed' publication is accounted for. */
  lemma {:induction false} ChangesArePaidOnce(events: seq<Event>, minInterval: nat, wallet: nat)
    requires InOrder(events, minInterval)
    ensures PaidOnce(Run(events, minInterval).log, wallet)
  {
    hide LastPublished, JobOutcome, LastCompleted, PaidOnce;
    if events == [] {
      NothingPaid(wallet);
    } else {
      var before, e := Run(events[..|events| - 1], minInterval), events[|events| - 1];
      ChangesArePaidOnce(events[..|events| - 1], minInterval, wallet);
      NewestMatchesLastCompleted(events[..|events| - 1], minInterval, wallet);
      if e.Job? && e.id < |before.rows| {
        DecidedAgainstNewest(before.rows, e.id, minInterval, e.broadcast);
        EntryIsPaid(before.log, Step(before, e, minInterval).log[|before.log|], wallet);
      }
    }
  }

  lemma NothingPaid(wallet: nat)
    ensures PaidOnce([], wallet)
  {
  }

  lemma DecidedAgainstNewest(rows: seq<Row>, id: nat, minInterval: nat, broadcast: Option<string>)
    requires id < |rows|
    ensures var result, newest := JobOutcome(rows, id, minInterval, broadcast), NewestPublished(rows, rows[id].wallet);
      result.Published? ==>
        && (result.reason == First <==> newest.None?)
        && (result.reason == Changed ==> newest.Some? && newest.value.figures != rows[id].figures)
  {
    hide LastPublished;
    if rows[id].onchainTxId.None? {
      ExceptUnpublished(rows, rows[id].wallet, id, |rows|);
    }
  }

  /** Over an in-order run: publications <= 1 + changes of figures + published span / minInterval. */
  lemma PublicationsAreBounded(events: seq<Event>, minInterval: nat, wallet: nat)
    requires InOrder(events, minInterval) && minInterval > 0
    ensures var s := Run(events, minInterval);
      Sum(PublicationCount(wallet), s.log) <= 1 + FigureChanges(s.log, wallet) + Span(s.rows, wallet) / minInterval
  {
    hide Run, InOrder, Sum, Span;
    var s := Run(events, minInterval);
    CountsByReason(s.log, wallet);
    ChangesArePaidOnce(events, minInterval, wallet);
    IntervalSpendIsBounded(events, minInterval, wallet);
    QuotientAtLeast(Sum(CountOf(wallet, Interval), s.log), minInterval, Span(s.rows, wallet));
  }

  lemma QuotientAtLeast(k: int, d: int, n: int)
    requires d > 0 && k * d <= n
    ensures k <= n / d
  {
    if k > n / d {
      Scale(d, n / d + 1, k);
    }
  }

  // ----- when a job publishes

  predicate PublishedOther(rows: seq<Row>, wallet: nat, except: nat, k: nat) {
    k < |rows| && k != except && rows[k].wallet == wallet && rows[k].onchainTxId.Some?
  }

  /** Row k is the wallet's newest published one: the last by block, then by time, and the first such row. */
  ghost predicate NewestOther(rows: seq<Row>, wallet: nat, except: nat, k: nat) {
    && PublishedOther(rows, wallet, except, k)
    && forall j | 0 <= j < |rows| && j != k && PublishedOther(rows, wallet, except, j) ::
         || rows[j].sourceBlock < rows[k].sourceBlock
         || (rows[j].sourceBlock == rows[k].sourceBlock && rows[j].observedAt < rows[k].observedAt)
         || (rows[j].sourceBlock == rows[k].sourceBlock && rows[j].observedAt == rows[k].observedAt && k < j)
  }

  lemma {:induction false} LastPublishedIsNewest(rows: seq<Row>, wallet: nat, except: nat)
    ensures var last := LastPublished(rows, wallet, except);
      if last.None? then forall k | 0 <= k < |rows| :: !PublishedOther(rows, wallet, except, k)
      else exists k: nat :: k < |rows| && NewestOther(rows, wallet, except, k) && rows[k] == last.value
  {
    if rows != [] {
      var n := |rows| - 1;
      LastPublishedIsNewest(rows[..n], wallet, except);
      var best := LastPublished(rows[..n], wallet, except);
      assert forall k | 0 <= k < n ::
        PublishedOther(rows[..n], wallet, except, k) == PublishedOther(rows, wallet, except, k);
      if best.Some? {
        var k: nat :| k < n && NewestOther(rows[..n], wallet, except, k) && rows[..n][k] == best.value;
        if PublishedOther(rows, wallet, except, n) && Newer(rows[n], best.value) {
          assert NewestOther(rows, wallet, except, n);
        } else {
          assert NewestOther(rows, wallet, except, k);
        }
      } else if PublishedOther(rows, wallet, except, n) {
        assert NewestOther(rows, wallet, except, n);
      }
    }
  }

  lemma NewestIsUnique(rows: seq<Row>, wallet: nat, except: nat, j: nat, k: nat)
    requires NewestOther(rows, wallet, except, j) && NewestOther(rows, wallet, except, k)
    ensures j == k
  {
  }

  /** The row can be broadcast: not yet published, all figures in range, a digest, and the network takes it. */
  predicate Ready(row: Row, broadcast: Option<string>, txId: string) {
    && row.onchainTxId.None? && broadcast == Some(txId)
    && |row.reportHash| == 64 && AllHex(row.reportHash)
    && 0 <= row.figures.riskScoreBps <= 10_000
    && (row.figures.liquidationDistanceBps.Some? ==> 0 <= row.figures.liquidationDistanceBps.value <= 10_000)
    && 0 <= row.figures.protocolConcentrationBps <= 10_000
    && 0 <= row.figures.liquidityScoreBps <= 10_000
  }

  /**
   * A job publishes exactly when its row is ready and due: the wallet has no other published row, or
   * the newest of them has other figures, or it has the same ones and is `minInterval` blocks older.
   */
  lemma PublishesExactly(rows: seq<Row>, id: nat, minInterval: nat, broadcast: Option<string>, txId: string)
    requires id < |rows|
    ensures var outcome, row := JobOutcome(rows, id, minInterval, broadcast), rows[id];
      && (outcome == Published(txId, First) <==>
            Ready(row, broadcast, txId) && forall k | 0 <= k < |rows| :: !PublishedOther(rows, row.wallet, id, k))
      && (outcome == Published(txId, Changed) <==>
            Ready(row, broadcast, txId)
            && exists k: nat :: NewestOther(rows, row.wallet, id, k) && rows[k].figures != row.figures)
      && (outcome == Published(txId, Interval) <==>
            Ready(row, broadcast, txId)
            && exists k: nat :: NewestOther(rows, row.wallet, id, k) && rows[k].figures == row.figures
                                && row.sourceBlock - rows[k].sourceBlock >= minInterval)
      && (outcome == Skipped <==>
            row.onchainTxId.None?
            && exists k: nat :: NewestOther(rows, row.wallet, id, k) && rows[k].figures == row.figures
                                && row.sourceBlock - rows[k].sourceBlock < minInterval)
  {
    hide LastPublished, NewestOther, PublishedOther, AllHex;
    var row := rows[id];
    LastPublishedIsNewest(rows, row.wallet, id);
    var last := LastPublished(rows, row.wallet, id);
    forall k: nat | NewestOther(rows, row.wallet, id, k)
      ensures k < |rows| && PublishedOther(rows, row.wallet, id, k) && last == Some(rows[k])
    {
      NewestIsPublished(rows, row.wallet, id, k);
      var j: nat :| j < |rows| && NewestOther(rows, row.wallet, id, j) && rows[j] == last.value;
      NewestIsUnique(rows, row.wallet, id, j, k);
    }
  }

  lemma NewestIsPublished(rows: seq<Row>, wallet: nat, except: nat, k: nat)
    requires NewestOther(rows, wallet, except, k)
    ensures k < |rows| && PublishedOther(rows, wallet, except, k)
  {
  }

  /** A publication marks its own row and nothing else; every other outcome leaves the ledger alone. */
  lemma JobMarksOnlyItsRow(rows: seq<Row>, id: nat, minInterval: nat, broadcast: Option<string>)
    ensures
      var outcome := JobOutcome(rows, id, minInterval, broadcast);
      var after := AfterJob(rows, id, minInterval, broadcast);
      && |after| == |rows|
      && (!outcome.Published? ==> after == rows)
      && (outcome.Published? ==>
            id < |rows| && after[id] == rows[id].(onchainTxId := Some(outcome.txId))
            && forall k | 0 <= k < |rows| && k != id :: after[k] == rows[k])
  {
    hide LastPublished;
  }

  // ----- which snapshots can be attested at all

  function Attested(s: Summary): (f: Figures)
    ensures f.riskScoreBps == s.riskScoreBps && f.healthFactorE4 == s.worstHealthFactorE4
    ensures f.liquidationDistanceBps == s.liquidationDistanceBps
    ensures f.protocolConcentrationBps == s.protocolConcentrationBps && f.liquidityScoreBps == s.liquidityScoreBps
  {
    Figures(s.riskScoreBps, s.worstHealthFactorE4, s.liquidationDistanceBps,
            s.protocolConcentrationBps, s.liquidityScoreBps)
  }

  /** A computed snapshot passes the publisher's checks exactly when no position reports a negative distance. */
  lemma AttestableExactly(ps: seq<Position>, reportHash: string)
    requires forall p | p in ps :: LiquidInRange(p) && (p.Distance().Some? ==> p.Distance().value <= 10_000)
    ensures PublishAccepts(Attested(CalculatePortfolioRisk(ps)), reportHash)
      <==> IsDigest(reportHash) && forall p | p in ps && p.Distance().Some? :: p.Distance().value >= 0
  {
    hide MinOver, ProtocolShareBps, AssetShareBps, AccessibilityBps, RawScore, IsDigest;
    SummaryInRange(ps);
    MinOverSpec(DistanceOf, ps);
  }

  const HEALTH_FACTOR_UNBOUNDED := 340282366920938463463374607431768211455

  /** What `publish` writes: the two figures a debt-free wallet lacks become sentinels. */
  function OnChainHealth(f: Figures): int {
    if f.healthFactorE4.Some? then f.healthFactorE4.value else HEALTH_FACTOR_UNBOUNDED
  }

  function OnChainDistance(f: Figures): int {
    if f.liquidationDistanceBps.Some? then f.liquidationDistanceBps.value else LIQUIDATION_DISTANCE_MAX
  }

  /** A debt-free wallet reads as at least as safe as any wallet that can be attested. */
  lemma SentinelsAreSafest(debtFree: Figures, other: Figures, reportHash: string)
    requires debtFree.healthFactorE4.None? && debtFree.liquidationDistanceBps.None?
    requires PublishAccepts(other, reportHash)
    requires other.healthFactorE4.Some? ==> other.healthFactorE4.value < 0x1_0000_0000_0000_0000_0000_0000_0000_0000
    ensures OnChainHealth(debtFree) == 0xFFFF_FFFF_FFFF_FFFF_FFFF_FFFF_FFFF_FFFF && OnChainDistance(debtFree) == 10_000
    ensures OnChainHealth(other) <= OnChainHealth(debtFree) && OnChainDistance(other) <= OnChainDistance(debtFree)
  {
  }

  /** While a position reports a negative distance, no job of its wallet completes a new publication. */
  lemma NegativeDistanceNeverPublishes(
      ps: seq<Position>, rows: seq<Row>, id: nat, minInterval: nat, broadcast: Option<string>, p: Position)
    requires p in ps && p.Distance().Some? && p.Distance().value < 0
    requires id < |rows| && rows[id].figures == Attested(CalculatePortfolioRisk(ps))
    ensures !JobOutcome(rows, id, minInterval, broadcast).Published?
    ensures AfterJob(rows, id, minInterval, broadcast) == rows
  {
    hide MinOver, ProtocolShareBps, AssetShareBps, AccessibilityBps, RawScore, LastPublished, IsDigest;
    MinOverSpec(DistanceOf, ps);
    assert DistanceOf(p).Some?;
  }

  /** The loan is past its liquidation threshold by half a basis point or more (more from 20001 bps on). */
  predicate Underwater(loan: Position) {
    && HasLoan(loan) && loan.lending.value.partialLtvBps.Some? && loan.lending.value.partialLtvBps.value >= 1
    && 20_000 * DebtE8(loan.assets)
         >= (2 * FirstUnderwater(loan.lending.value.partialLtvBps.value) - 1) * CollateralE8(loan.assets)
  }

  /** So while a wallet holds a loan that far past its threshold, nothing of it is published. */
  lemma UnderwaterNeverPublishes(
      loan: Position, prices: Option<Prices>,
      ps: seq<Position>, rows: seq<Row>, id: nat, minInterval: nat, broadcast: Option<string>)
    requires Underwater(loan) && DeriveLendingMetrics(loan, prices) in ps
    requires id < |rows| && rows[id].figures == Attested(CalculatePortfolioRisk(ps))
    ensures !JobOutcome(rows, id, minInterval, broadcast).Published?
    ensures AfterJob(rows, id, minInterval, broadcast) == rows
  {
    hide DeriveLendingMetrics, CalculatePortfolioRisk, JobOutcome, AfterJob, FirstUnderwater;
    UnderwaterExactly(loan, prices);
    NegativeDistanceNeverPublishes(ps, rows, id, minInterval, broadcast, DeriveLendingMetrics(loan, prices));
  }

  function SampleLoan(collateral: int, debt: int): Position {
    SAMPLE_LOAN.(assets := [SAMPLE_COLLATERAL.(valueE8 := Some(collateral)), SAMPLE_DEBT.(valueE8 := Some(debt))])
  }

  lemma SampleDistance(collateral: int, debt: int)
    requires collateral > 0 && debt > 0
    ensures var p := DeriveLendingMetrics(SampleLoan(collateral, debt), None);
      && p.Distance() == Some(DistanceBps(7_000, LtvBps(debt, collateral))) && LiquidInRange(p)
      && CollateralE8(p.assets) == collateral && DebtE8(p.assets) == debt
  {
    hide Sum, Valued, HealthFactorE4, DistanceBps, LtvBps, LiquidationPriceE8;
    SampleRoles(collateral, debt);
  }

  /** A wallet whose debt equals its collateral, at a threshold of 70%, cannot be attested. */
  lemma UnderwaterSample(reportHash: string)
    ensures var p := DeriveLendingMetrics(SampleLoan(5_000, 5_000), None);
      p.Distance() == Some(-4_286) && !PublishAccepts(Attested(CalculatePortfolioRisk([p])), reportHash)
  {
    hide DeriveLendingMetrics, CalculatePortfolioRisk, IsDigest, PublishAccepts, LiquidInRange, DebtE8, CollateralE8;
    var p := DeriveLendingMetrics(SampleLoan(5_000, 5_000), None);
    SampleDistance(5_000, 5_000);
    assert p in [p];
    AttestableExactly([p], reportHash);
  }

  /** One past its threshold by less than half a basis point can. */
  lemma BarelyPastSample(reportHash: string)
    requires IsDigest(reportHash)
    ensures var p := DeriveLendingMetrics(SampleLoan(10_000_000, 7_000_400), None);
      && 10_000 * DebtE8(p.assets) > 7_000 * CollateralE8(p.assets)
      && p.Distance() == Some(0) && PublishAccepts(Attested(CalculatePortfolioRisk([p])), reportHash)
  {
    hide DeriveLendingMetrics, CalculatePortfolioRisk, IsDigest, PublishAccepts, LiquidInRange, DebtE8, CollateralE8;
    SampleDistance(10_000_000, 7_000_400);
    AttestableExactly([DeriveLendingMetrics(SampleLoan(10_000_000, 7_000_400), None)], reportHash);
  }
}
