/** The ledger's on-chain snapshot ids against the canonical chain, across reorgs and redeliveries. */
module ReorgMirror {
  import opened Collections
  import opened Decimals
  import opened Texts
  import opened Ledger
  import opened Chainhook

  // ----- the chain

  /** A mined publish transaction; `snapshotId` is None when it failed or aborted. */
  datatype Mined = Mined(txId: string, snapshotId: Option<nat>)

  datatype ChainBlock = ChainBlock(height: int, txs: seq<Mined>)

  type Chain = seq<ChainBlock>

  predicate IsTxId(s: string) {
    |s| == 64 && forall i | 0 <= i < 64 :: '0' <= s[i] <= '9' || 'a' <= s[i] <= 'f'
  }

  function Flat(chain: Chain): seq<Mined> {
    if chain == [] then [] else Flat(chain[..|chain| - 1]) + chain[|chain| - 1].txs
  }

  /** A transaction is mined at most once on a canonical chain. */
  predicate MinedOnce(ms: seq<Mined>) {
    && (forall m | m in ms :: IsTxId(m.txId))
    && forall i, j | 0 <= i < j < |ms| :: ms[i].txId != ms[j].txId
  }

  predicate Contains(ms: seq<Mined>, txId: string) { exists m :: m in ms && m.txId == txId }

  /** The snapshot id the chain gives a transaction. */
  function Canonical(ms: seq<Mined>, txId: string): Option<nat> {
    if ms == [] then None
    else if ms[|ms| - 1].txId == txId then ms[|ms| - 1].snapshotId
    else Canonical(ms[..|ms| - 1], txId)
  }

  lemma {:induction false} CanonicalOf(ms: seq<Mined>, m: Mined)
    requires MinedOnce(ms) && m in ms
    ensures Canonical(ms, m.txId) == m.snapshotId
  {
    if ms[|ms| - 1] != m {
      assert m in ms[..|ms| - 1];
      CanonicalOf(ms[..|ms| - 1], m);
    }
  }

  lemma {:induction false} CanonicalAbsent(ms: seq<Mined>, txId: string)
    requires !Contains(ms, txId)
    ensures Canonical(ms, txId) == None
  {
    if ms != [] {
      var before := ms[..|ms| - 1];
      assert ms[|ms| - 1] in ms;
      assert forall m | m in before :: m in ms;
      CanonicalAbsent(before, txId);
    }
  }

  // ----- deliveries

  /** The chain drops its last `dropped` blocks and gains `applied`. */
  datatype Delivery = Delivery(dropped: nat, applied: Chain)

  predicate Fits(d: Delivery, chain: Chain) { d.dropped <= |chain| }

  function Kept(d: Delivery, chain: Chain): Chain
    requires Fits(d, chain)
  {
    chain[..|chain| - d.dropped]
  }

  function Dropped(d: Delivery, chain: Chain): Chain
    requires Fits(d, chain)
  {
    chain[|chain| - d.dropped..]
  }

  function After(d: Delivery, chain: Chain): Chain
    requires Fits(d, chain)
  {
    Kept(d, chain) + d.applied
  }

  /** The payload's transaction names the mined one and reports its outcome. */
  ghost predicate Describes(tx: Tx, m: Mined) {
    Names(tx, m.txId) && forall id: nat :: Reports(tx, id) <==> m.snapshotId == Some(id)
  }

  lemma DescribedIsRead(tx: Tx, m: Mined)
    requires Describes(tx, m)
    ensures TxHash(tx) == Some(m.txId) && SnapshotIdFromResult(tx) == m.snapshotId
  {
    hide TxHash, SnapshotIdFromResult, Names, Reports;
    HashExactly(tx, m.txId);
    var read := SnapshotIdFromResult(tx);
    if read.Some? { SnapshotIdExactly(tx, read.value); }
    if m.snapshotId.Some? { SnapshotIdExactly(tx, m.snapshotId.value); }
  }

  ghost predicate DescribesAll(txs: seq<Tx>, ms: seq<Mined>) {
    |txs| == |ms| && forall i | 0 <= i < |ms| :: Describes(txs[i], ms[i])
  }

  ghost predicate DescribesBlocks(blocks: seq<Block>, chain: Chain) {
    |blocks| == |chain| && forall i | 0 <= i < |chain| :: DescribesAll(Transactions(blocks[i]), chain[i].txs)
  }

  /** The payload reports exactly this delivery, in whichever shape. */
  ghost predicate Carries(p: Payload, d: Delivery, chain: Chain)
    requires Fits(d, chain)
  {
    DescribesBlocks(ApplyBlocks(p), d.applied) && DescribesBlocks(RollbackBlocks(p), Dropped(d, chain))
  }

  // ----- what the parser extracts

  function Successes(ms: seq<Mined>): seq<Update> {
    if ms == [] then []
    else
      var m := ms[|ms| - 1];
      Successes(ms[..|ms| - 1]) + (if m.snapshotId.Some? then [Update(m.txId, m.snapshotId)] else [])
  }

  lemma {:induction false} SuccessesAppend(a: seq<Mined>, b: seq<Mined>)
    ensures Successes(a + b) == Successes(a) + Successes(b)
  {
    if b == [] {
      assert a + b == a;
    } else {
      assert (a + b)[..|a + b| - 1] == a + b[..|b| - 1];
      SuccessesAppend(a, b[..|b| - 1]);
    }
  }

  lemma ConfirmedTxIs(tx: Tx, m: Mined, height: Option<int>)
    requires Describes(tx, m) && IsTxId(m.txId)
    ensures Confirmings(ConfirmedTx(tx, height))
      == if m.snapshotId.Some? then [Update(m.txId, m.snapshotId)] else []
  {
    hide TxHash, SnapshotIdFromResult, Describes;
    DescribedIsRead(tx, m);
  }

  lemma {:induction false} ConfirmedInIs(txs: seq<Tx>, ms: seq<Mined>, height: Option<int>)
    requires DescribesAll(txs, ms) && forall m | m in ms :: IsTxId(m.txId)
    ensures Confirmings(ConfirmedIn(txs, height)) == Successes(ms)
  {
    hide ConfirmedTx, Confirmings, Describes, IsTxId;
    if ms != [] {
      var n := |ms| - 1;
      assert Describes(txs[n], ms[n]) && ms[n] in ms;
      ConfirmedTxIs(txs[n], ms[n], height);
      ConfirmedInIs(txs[..n], ms[..n], height);
      ConfirmingsAppend(ConfirmedIn(txs[..n], height), ConfirmedTx(txs[n], height));
    } else {
      NothingConfirmed();
    }
  }

  lemma NothingConfirmed()
    ensures Confirmings([]) == []
  {
  }

  lemma ConfirmingsAppend(a: seq<PublishedSnapshot>, b: seq<PublishedSnapshot>)
    ensures Confirmings(a + b) == Confirmings(a) + Confirmings(b)
  {
  }

  predicate ValidIds(chain: Chain) { forall b, m | b in chain && m in b.txs :: IsTxId(m.txId) }

  lemma {:induction false} ConfirmedIs(blocks: seq<Block>, chain: Chain)
    requires DescribesBlocks(blocks, chain) && ValidIds(chain)
    ensures Confirmings(Confirmed(blocks)) == Successes(Flat(chain))
  {
    hide ConfirmedIn, IsTxId;
    if chain != [] {
      var n := |chain| - 1;
      assert chain[n] in chain && DescribesAll(Transactions(blocks[n]), chain[n].txs);
      ConfirmedIs(blocks[..n], chain[..n]);
      ConfirmedInIs(Transactions(blocks[n]), chain[n].txs, blocks[n].index);
      ConfirmingsAppend(Confirmed(blocks[..n]), ConfirmedIn(Transactions(blocks[n]), blocks[n].index));
      SuccessesAppend(Flat(chain[..n]), chain[n].txs);
    }
  }

  lemma {:induction false} RolledBackInIs(s: seq<string>, txs: seq<Tx>, ms: seq<Mined>)
    requires DescribesAll(txs, ms) && forall m | m in ms :: IsTxId(m.txId)
    ensures forall t :: t in RolledBackIn(s, txs) <==> t in s || Contains(ms, t)
  {
    hide TxHash, Describes;
    if ms != [] {
      var n := |ms| - 1;
      assert Describes(txs[n], ms[n]) && ms[n] in ms;
      DescribedIsRead(txs[n], ms[n]);
      RolledBackInIs(s, txs[..n], ms[..n]);
      assert ms == ms[..n] + [ms[n]];
    }
  }

  lemma {:induction false} RolledBackIs(blocks: seq<Block>, chain: Chain)
    requires DescribesBlocks(blocks, chain) && ValidIds(chain)
    ensures forall t :: t in RolledBack(blocks) <==> Contains(Flat(chain), t)
  {
    hide RolledBackIn, IsTxId;
    if chain != [] {
      var n := |chain| - 1;
      assert chain[n] in chain && DescribesAll(Transactions(blocks[n]), chain[n].txs);
      RolledBackIs(blocks[..n], chain[..n]);
      RolledBackInIs(RolledBack(blocks[..n]), Transactions(blocks[n]), chain[n].txs);
    }
  }

  // ----- what the updates do to one row

  /** The transaction a stored id names. */
  function KeyOf(stored: string): string {
    if |stored| == 66 && "0x" <= stored then stored[2..] else stored
  }

  /** Broadcasts return lower-case ids, with or without the prefix. */
  predicate WellSpelled(stored: string) { IsTxId(KeyOf(stored)) }

  lemma MatchesByKey(r: Row, txId: string)
    requires r.onchainTxId.Some? && WellSpelled(r.onchainTxId.value) && IsTxId(txId)
    ensures RowMatches(r, txId) <==> KeyOf(r.onchainTxId.value) == txId
  {
    var stored := r.onchainTxId.value;
    assert ("0x" + txId)[2..] == txId;
    if |stored| == 66 && "0x" <= stored {
      assert stored == "0x" + stored[2..];
    }
  }

  /** The last update for a transaction, if there is one. */
  function LastFor(us: seq<Update>, txId: string): Option<Option<nat>> {
    if us == [] then None
    else if us[|us| - 1].txId == txId then Some(us[|us| - 1].value)
    else LastFor(us[..|us| - 1], txId)
  }

  /** The last update that reaches a row. */
  function LastOn(us: seq<Update>, r: Row): Option<Option<nat>> {
    if us == [] then None
    else if RowMatches(r, us[|us| - 1].txId) then Some(us[|us| - 1].value)
    else LastOn(us[..|us| - 1], r)
  }

  function SetTo(r: Row, last: Option<Option<nat>>): Row {
    if last.Some? then r.(onchainSnapshotId := last.value) else r
  }

  lemma {:induction false} LastOnIsLastFor(us: seq<Update>, r: Row)
    requires forall u | u in us :: IsTxId(u.txId)
    requires r.onchainTxId.Some? && WellSpelled(r.onchainTxId.value)
    ensures LastOn(us, r) == LastFor(us, KeyOf(r.onchainTxId.value))
  {
    hide IsTxId, KeyOf, RowMatches, WellSpelled;
    if us != [] {
      var before, u := us[..|us| - 1], us[|us| - 1];
      assert u in us && forall x | x in before :: x in us;
      LastOnIsLastFor(before, r);
      MatchesByKey(r, u.txId);
    }
  }

  lemma {:induction false} RowAfter(rows: seq<Row>, us: seq<Update>, i: nat)
    requires i < |rows|
    ensures Updated(rows, us)[i] == SetTo(rows[i], LastOn(us, rows[i]))
  {
    if us != [] {
      RowAfter(rows, us[..|us| - 1], i);
      assert RowMatches(Updated(rows, us[..|us| - 1])[i], us[|us| - 1].txId)
        <==> RowMatches(rows[i], us[|us| - 1].txId);
    }
  }

  lemma {:induction false} SameTxSameUpdates(us: seq<Update>, r: Row, q: Row)
    requires r.onchainTxId == q.onchainTxId
    ensures LastOn(us, r) == LastOn(us, q)
  {
    if us != [] { SameTxSameUpdates(us[..|us| - 1], r, q); }
  }

  /** Processing a delivery again, at once, changes nothing. */
  lemma RedeliveryIsIdempotent(rows: seq<Row>, p: Payload)
    ensures Updated(Updated(rows, UpdatesOf(p)), UpdatesOf(p)) == Updated(rows, UpdatesOf(p))
  {
    hide Updated, UpdatesOf, LastOn;
    var us := UpdatesOf(p);
    var once := Updated(rows, us);
    forall i | 0 <= i < |rows| ensures Updated(once, us)[i] == once[i] {
      RowAfter(rows, us, i);
      RowAfter(once, us, i);
      SameTxSameUpdates(us, rows[i], once[i]);
    }
  }

  lemma {:induction false} LastForAppend(a: seq<Update>, b: seq<Update>, txId: string)
    ensures LastFor(a + b, txId) == if LastFor(b, txId).Some? then LastFor(b, txId) else LastFor(a, txId)
  {
    if b == [] {
      assert a + b == a;
    } else {
      assert (a + b)[..|a + b| - 1] == a + b[..|b| - 1];
      LastForAppend(a, b[..|b| - 1], txId);
    }
  }

  lemma {:induction false} LastSuccess(ms: seq<Mined>, txId: string)
    requires MinedOnce(ms)
    ensures LastFor(Successes(ms), txId) == if Canonical(ms, txId).Some? then Some(Canonical(ms, txId)) else None
  {
    if ms != [] {
      var before, m := ms[..|ms| - 1], ms[|ms| - 1];
      assert forall x | x in before :: x in ms;
      LastSuccess(before, txId);
      var tail := if m.snapshotId.Some? then [Update(m.txId, m.snapshotId)] else [];
      LastForAppend(Successes(before), tail, txId);
      if m.txId == txId {
        assert !Contains(before, txId);
        CanonicalAbsent(before, txId);
      }
    }
  }

  lemma {:induction false} LastClearing(txIds: seq<string>, txId: string)
    ensures LastFor(Clearings(txIds), txId) == if txId in txIds then Some(None) else None
  {
    if txIds != [] {
      var n := |txIds| - 1;
      assert Clearings(txIds)[..n] == Clearings(txIds[..n]);
      assert txIds == txIds[..n] + [txIds[n]];
      LastClearing(txIds[..n], txId);
    }
  }

  // ----- one delivery

  lemma {:induction false} FlatAppend(a: Chain, b: Chain)
    ensures Flat(a + b) == Flat(a) + Flat(b)
  {
    if b == [] {
      assert a + b == a;
    } else {
      assert (a + b)[..|a + b| - 1] == a + b[..|b| - 1];
      FlatAppend(a, b[..|b| - 1]);
    }
  }

  lemma {:induction false} CanonicalAppend(a: seq<Mined>, b: seq<Mined>, txId: string)
    ensures Canonical(a + b, txId) == if Contains(b, txId) then Canonical(b, txId) else Canonical(a, txId)
  {
    if b == [] {
      assert a + b == a;
    } else {
      var before, m := b[..|b| - 1], b[|b| - 1];
      assert (a + b)[..|a + b| - 1] == a + before;
      CanonicalAppend(a, before, txId);
      assert b == before + [m];
    }
  }

  lemma OnlyOneSide(a: seq<Mined>, b: seq<Mined>, txId: string)
    requires MinedOnce(a + b) && Contains(b, txId)
    ensures !Contains(a, txId)
  {
    var m :| m in b && m.txId == txId;
    var j :| 0 <= j < |b| && b[j] == m;
    forall n | n in a ensures n.txId != txId {
      var i :| 0 <= i < |a| && a[i] == n;
      assert (a + b)[i] == n && (a + b)[|a| + j] == m;
    }
  }

  lemma MinedOnceParts(a: seq<Mined>, b: seq<Mined>)
    requires MinedOnce(a + b)
    ensures MinedOnce(a) && MinedOnce(b)
  {
    forall m | m in a || m in b ensures IsTxId(m.txId) { assert m in a + b; }
    forall i, j | 0 <= i < j < |a| ensures a[i].txId != a[j].txId {
      assert (a + b)[i] == a[i] && (a + b)[j] == a[j];
    }
    forall i, j | 0 <= i < j < |b| ensures b[i].txId != b[j].txId {
      assert (a + b)[|a| + i] == b[i] && (a + b)[|a| + j] == b[j];
    }
  }

  /** What the last update leaves behind is what the new chain says. */
  lemma CanonicalMoves(kept: seq<Mined>, dropped: seq<Mined>, applied: seq<Mined>, txId: string)
    requires MinedOnce(kept + dropped) && MinedOnce(kept + applied)
    ensures Canonical(kept + applied, txId) ==
      if Canonical(applied, txId).Some? then Canonical(applied, txId)
      else if Contains(dropped, txId) then None
      else Canonical(kept + dropped, txId)
  {
    hide Canonical, Contains, MinedOnce;
    CanonicalAppend(kept, dropped, txId);
    CanonicalAppend(kept, applied, txId);
    if Contains(applied, txId) {
      OnlyOneSide(kept, applied, txId);
      CanonicalAbsent(kept, txId);
    } else {
      CanonicalAbsent(applied, txId);
    }
    if Contains(dropped, txId) {
      OnlyOneSide(kept, dropped, txId);
      CanonicalAbsent(kept, txId);
    }
  }

  /** A delivery the environment can make: it fits the chain, mines nothing twice, and the payload carries it. */
  ghost predicate ValidDelivery(d: Delivery, p: Payload, chain: Chain) {
    && Fits(d, chain)
    && MinedOnce(Flat(chain)) && MinedOnce(Flat(After(d, chain)))
    && Carries(p, d, chain)
  }

  lemma {:induction false} FlatMembers(chain: Chain)
    ensures forall b, m | b in chain && m in b.txs :: m in Flat(chain)
  {
    if chain != [] {
      var before := chain[..|chain| - 1];
      FlatMembers(before);
      assert chain == before + [chain[|chain| - 1]];
    }
  }

  /** The last thing a delivery says about a transaction. */
  lemma DeliveryUpdates(d: Delivery, p: Payload, chain: Chain, txId: string)
    requires ValidDelivery(d, p, chain)
    ensures var applied := Canonical(Flat(d.applied), txId);
      LastFor(UpdatesOf(p), txId) ==
        if applied.Some? then Some(applied) else if Contains(Flat(Dropped(d, chain)), txId) then Some(None) else None
    ensures forall u | u in UpdatesOf(p) :: IsTxId(u.txId)
  {
    hide Confirmed, RolledBack, Clearings, Confirmings, Canonical, LastFor, IsTxId, Contains;
    var kept, dropped := Kept(d, chain), Dropped(d, chain);
    assert chain == kept + dropped;
    FlatAppend(kept, dropped);
    FlatAppend(kept, d.applied);
    MinedOnceParts(Flat(kept), Flat(dropped));
    MinedOnceParts(Flat(kept), Flat(d.applied));
    FlatMembers(dropped);
    FlatMembers(d.applied);
    ConfirmedIs(ApplyBlocks(p), d.applied);
    RolledBackIs(RollbackBlocks(p), dropped);
    var rolledBack := RolledBack(RollbackBlocks(p));
    LastForAppend(Clearings(rolledBack), Successes(Flat(d.applied)), txId);
    LastClearing(rolledBack, txId);
    LastSuccess(Flat(d.applied), txId);
    UpdateIds(rolledBack, Flat(dropped), Flat(d.applied));
  }

  lemma UpdateIds(rolledBack: seq<string>, dropped: seq<Mined>, applied: seq<Mined>)
    requires MinedOnce(dropped) && MinedOnce(applied)
    requires forall t :: t in rolledBack <==> Contains(dropped, t)
    ensures forall u | u in Clearings(rolledBack) + Successes(applied) :: IsTxId(u.txId)
  {
    hide IsTxId;
    SuccessIds(applied);
    forall u | u in Clearings(rolledBack) ensures IsTxId(u.txId) {
      assert u.txId in rolledBack;
    }
  }

  lemma {:induction false} SuccessIds(ms: seq<Mined>)
    requires forall m | m in ms :: IsTxId(m.txId)
    ensures forall u | u in Successes(ms) :: IsTxId(u.txId)
  {
    hide IsTxId;
    if ms != [] {
      assert ms[|ms| - 1] in ms && forall m | m in ms[..|ms| - 1] :: m in ms;
      SuccessIds(ms[..|ms| - 1]);
    }
  }

  /** The row shows the chain's snapshot id for its transaction. */
  predicate Mirrors(r: Row, chain: Chain) {
    && r.onchainTxId.Some? && WellSpelled(r.onchainTxId.value)
    && r.onchainSnapshotId == Canonical(Flat(chain), KeyOf(r.onchainTxId.value))
  }

  lemma DeliveryKeepsMirror(rows: seq<Row>, i: nat, d: Delivery, p: Payload, chain: Chain)
    requires i < |rows| && ValidDelivery(d, p, chain) && Mirrors(rows[i], chain)
    ensures Mirrors(Updated(rows, UpdatesOf(p))[i], After(d, chain))
  {
    hide Updated, UpdatesOf, Canonical, LastFor, LastOn, KeyOf, WellSpelled, Contains, MinedOnce, IsTxId, Carries, Flat;
    var key := KeyOf(rows[i].onchainTxId.value);
    RowAfter(rows, UpdatesOf(p), i);
    DeliveryUpdates(d, p, chain, key);
    LastOnIsLastFor(UpdatesOf(p), rows[i]);
    var kept, dropped := Kept(d, chain), Dropped(d, chain);
    assert chain == kept + dropped;
    FlatAppend(kept, dropped);
    FlatAppend(kept, d.applied);
    CanonicalMoves(Flat(kept), Flat(dropped), Flat(d.applied), key);
  }

  // ----- whole runs

  datatype Event =
    | Insert(row: Row)
    | Mark(id: nat, txId: string)
    | Deliver(delivery: Delivery, payload: Payload, repeats: nat)

  /** `tracked` holds the rows whose transaction id was stored before its block was delivered. */
  datatype World = World(rows: seq<Row>, chain: Chain, tracked: set<nat>)

  function Repeated(rows: seq<Row>, p: Payload, times: nat): seq<Row> {
    if times == 0 then rows else Updated(Repeated(rows, p, times - 1), UpdatesOf(p))
  }

  function Step(w: World, e: Event): World {
    match e
    case Insert(row) => w.(rows := w.rows + [row.(onchainTxId := None, onchainSnapshotId := None)])
    case Mark(id, txId) =>
      if id >= |w.rows| || w.rows[id].onchainTxId.Some? then w
      else w.(rows := Marked(w.rows, id, txId),
              tracked := if WellSpelled(txId) && !Contains(Flat(w.chain), KeyOf(txId)) then w.tracked + {id}
                          else w.tracked)
    case Deliver(d, p, repeats) =>
      if !Fits(d, w.chain) then w
      else w.(rows := Repeated(w.rows, p, repeats + 1), chain := After(d, w.chain))
  }

  function Run(events: seq<Event>): World {
    if events == [] then World([], [], {}) else Step(Run(events[..|events| - 1]), events[|events| - 1])
  }

  ghost predicate ValidRun(events: seq<Event>) {
    events == [] ||
    var before, e := events[..|events| - 1], events[|events| - 1];
    ValidRun(before) && (e.Deliver? ==> ValidDelivery(e.delivery, e.payload, Run(before).chain))
  }

  lemma {:induction false} RepeatedIsOnce(rows: seq<Row>, p: Payload, times: nat)
    requires times > 0
    ensures Repeated(rows, p, times) == Updated(rows, UpdatesOf(p))
  {
    hide Updated, UpdatesOf;
    if times > 1 {
      RepeatedIsOnce(rows, p, times - 1);
      RedeliveryIsIdempotent(rows, p);
    }
  }

  predicate Sound(w: World) {
    && (forall id | id in w.tracked :: id < |w.rows| && Mirrors(w.rows[id], w.chain))
    && (forall id | 0 <= id < |w.rows| && w.rows[id].onchainTxId.None? :: w.rows[id].onchainSnapshotId.None?)
  }

  lemma {:induction false} UntouchedRow(us: seq<Update>, r: Row)
    requires r.onchainTxId.None?
    ensures LastOn(us, r) == None
  {
    if us != [] { UntouchedRow(us[..|us| - 1], r); }
  }

  lemma DeliveryKeepsSound(w: World, d: Delivery, p: Payload)
    requires Sound(w) && ValidDelivery(d, p, w.chain)
    ensures Sound(w.(rows := Updated(w.rows, UpdatesOf(p)), chain := After(d, w.chain)))
  {
    hide Updated, UpdatesOf, Mirrors, LastOn, MinedOnce, Carries;
    var rows := Updated(w.rows, UpdatesOf(p));
    forall id | id in w.tracked ensures Mirrors(rows[id], After(d, w.chain)) {
      DeliveryKeepsMirror(w.rows, id, d, p, w.chain);
    }
    forall id | 0 <= id < |rows| && rows[id].onchainTxId.None? ensures rows[id].onchainSnapshotId.None? {
      RowAfter(w.rows, UpdatesOf(p), id);
      UntouchedRow(UpdatesOf(p), w.rows[id]);
    }
  }

  lemma MarkKeepsSound(w: World, id: nat, txId: string)
    requires Sound(w)
    ensures Sound(Step(w, Mark(id, txId)))
  {
    hide Canonical, KeyOf, WellSpelled, Contains, Flat;
    if WellSpelled(txId) && !Contains(Flat(w.chain), KeyOf(txId)) {
      CanonicalAbsent(Flat(w.chain), KeyOf(txId));
    }
  }

  /**
   * In every run of in-order deliveries, each repeated any number of times at once, a tracked row shows
   * exactly the canonical chain's snapshot id for its transaction, or none if the chain has none.
   */
  lemma {:induction false} MirrorIsCanonical(events: seq<Event>)
    requires ValidRun(events)
    ensures Sound(Run(events))
  {
    hide Sound, Updated, UpdatesOf, ValidDelivery, Repeated;
    if events == [] {
      EmptyWorldSound();
    } else {
      var before, e := Run(events[..|events| - 1]), events[|events| - 1];
      MirrorIsCanonical(events[..|events| - 1]);
      match e {
        case Insert(row) => InsertKeepsSound(before, row);
        case Mark(id, txId) => MarkKeepsSound(before, id, txId);
        case Deliver(d, p, repeats) =>
          DeliveryKeepsSound(before, d, p);
          RepeatedIsOnce(before.rows, p, repeats + 1);
      }
    }
  }

  lemma EmptyWorldSound()
    ensures Sound(World([], [], {}))
  {
  }

  lemma InsertKeepsSound(w: World, row: Row)
    requires Sound(w)
    ensures Sound(Step(w, Insert(row)))
  {
  }

  /** A transaction rolled back and mined again in one payload ends confirmed. */
  lemma RemineEndsConfirmed(rows: seq<Row>, i: nat, d: Delivery, p: Payload, chain: Chain, m: Mined)
    requires i < |rows| && ValidDelivery(d, p, chain) && Mirrors(rows[i], chain)
    requires Contains(Flat(Dropped(d, chain)), m.txId) && m in Flat(d.applied) && m.snapshotId.Some?
    requires KeyOf(rows[i].onchainTxId.value) == m.txId
    ensures Updated(rows, UpdatesOf(p))[i].onchainSnapshotId == m.snapshotId
  {
    hide Updated, UpdatesOf, LastFor, LastOn, KeyOf, WellSpelled, IsTxId;
    RowAfter(rows, UpdatesOf(p), i);
    DeliveryUpdates(d, p, chain, m.txId);
    LastOnIsLastFor(UpdatesOf(p), rows[i]);
    FlatAppend(Kept(d, chain), d.applied);
    MinedOnceParts(Flat(Kept(d, chain)), Flat(d.applied));
    CanonicalOf(Flat(d.applied), m);
  }

  // ----- both payload shapes carry the delivery

  function Repr(id: nat): string { OK_OPEN + Decimal(id) + ")" }

  lemma ReprParses(id: nat)
    ensures ParseOk(Repr(id)) == Some(id)
  {
    var s := Repr(id);
    TrimNothing(s);
    assert s[|OK_OPEN|..|s| - 1] == Decimal(id);
    ValueOfDecimal(id);
  }

  /** A mined transaction in the 1.x shape. */
  function TxV1(m: Mined): Tx {
    Tx(Some("0x" + m.txId), Some(Meta(m.snapshotId.Some?, None,
      Plain(if m.snapshotId.Some? then Repr(m.snapshotId.value) else "(err u100)"))))
  }

  /** The same transaction in the 2.0 shape. */
  function TxV2(m: Mined): Tx {
    Tx(Some("0x" + m.txId), Some(Meta(false, Some(if m.snapshotId.Some? then "success" else "abort_by_response"),
      WithRepr(Some(if m.snapshotId.Some? then Repr(m.snapshotId.value) else "(err u100)")))))
  }

  lemma PrefixedNames(txId: string, tx: Tx)
    requires IsTxId(txId) && tx.hash == Some("0x" + txId)
    ensures Names(tx, txId)
  {
    assert Lower(txId) == txId;
  }

  lemma ReprIs(id: nat, other: nat)
    ensures OkText(Repr(id), other) <==> id == other
  {
    ReprParses(id);
    ParsesExactly(Repr(id), other);
  }

  lemma ShapesDescribe(m: Mined)
    requires IsTxId(m.txId)
    ensures Describes(TxV1(m), m) && Describes(TxV2(m), m)
  {
    hide IsTxId, OkText, Repr, Names;
    PrefixedNames(m.txId, TxV1(m));
    PrefixedNames(m.txId, TxV2(m));
    forall id: nat ensures Reports(TxV1(m), id) <==> m.snapshotId == Some(id)
      ensures Reports(TxV2(m), id) <==> m.snapshotId == Some(id)
    {
      if m.snapshotId.Some? { ReprIs(m.snapshotId.value, id); }
    }
  }

  function Encode(chain: Chain, shape: Mined -> Tx): (blocks: seq<Block>)
    ensures |blocks| == |chain|
    ensures forall i | 0 <= i < |chain| :: Transactions(blocks[i]) == EncodeTxs(chain[i].txs, shape)
  {
    seq(|chain|, i requires 0 <= i < |chain| => Block(Some(chain[i].height), Some(EncodeTxs(chain[i].txs, shape))))
  }

  function EncodeTxs(ms: seq<Mined>, shape: Mined -> Tx): (txs: seq<Tx>)
    ensures |txs| == |ms| && forall i | 0 <= i < |ms| :: txs[i] == shape(ms[i])
  {
    seq(|ms|, i requires 0 <= i < |ms| => shape(ms[i]))
  }

  function PayloadV1(d: Delivery, chain: Chain): Payload
    requires Fits(d, chain)
  {
    Payload(Sides(Some(Encode(d.applied, TxV1)), Some(Encode(Dropped(d, chain), TxV1))), None)
  }

  function PayloadV2(d: Delivery, chain: Chain): Payload
    requires Fits(d, chain)
  {
    Payload(Sides(None, None), Some(Sides(Some(Encode(d.applied, TxV2)), Some(Encode(Dropped(d, chain), TxV2)))))
  }

  lemma EncodedDescribes(chain: Chain, shape: Mined -> Tx)
    requires ValidIds(chain) && (shape == TxV1 || shape == TxV2)
    ensures DescribesBlocks(Encode(chain, shape), chain)
  {
    hide IsTxId, Describes, TxV1, TxV2;
    forall i, j | 0 <= i < |chain| && 0 <= j < |chain[i].txs|
      ensures Describes(shape(chain[i].txs[j]), chain[i].txs[j])
    {
      assert chain[i] in chain && chain[i].txs[j] in chain[i].txs;
      ShapesDescribe(chain[i].txs[j]);
    }
  }

  /** The 1.x and the 2.0 rendering of a delivery both carry it, so they move the ledger alike. */
  lemma ShapesAgree(d: Delivery, chain: Chain)
    requires Fits(d, chain) && ValidIds(d.applied) && ValidIds(chain)
    ensures Carries(PayloadV1(d, chain), d, chain) && Carries(PayloadV2(d, chain), d, chain)
    ensures UpdatesOf(PayloadV1(d, chain)) == UpdatesOf(PayloadV2(d, chain))
  {
    hide TxV1, TxV2, DescribesBlocks, Confirmed, RolledBack, Encode, IsTxId;
    var dropped := Dropped(d, chain);
    assert forall b | b in dropped :: b in chain;
    EncodedDescribes(d.applied, TxV1);
    EncodedDescribes(d.applied, TxV2);
    EncodedDescribes(dropped, TxV1);
    EncodedDescribes(dropped, TxV2);
    ConfirmedIs(Encode(d.applied, TxV1), d.applied);
    ConfirmedIs(Encode(d.applied, TxV2), d.applied);
    SameRollbacks(Encode(dropped, TxV1), Encode(dropped, TxV2), dropped);
  }

  lemma {:induction false} SameRollbacks(a: seq<Block>, b: seq<Block>, chain: Chain)
    requires DescribesBlocks(a, chain) && DescribesBlocks(b, chain)
    ensures RolledBack(a) == RolledBack(b)
  {
    hide RolledBackIn, Describes;
    if chain != [] {
      var n := |chain| - 1;
      SameRollbacks(a[..n], b[..n], chain[..n]);
      assert DescribesAll(Transactions(a[n]), chain[n].txs) && DescribesAll(Transactions(b[n]), chain[n].txs);
      SameRollbacksIn(RolledBack(a[..n]), Transactions(a[n]), Transactions(b[n]), chain[n].txs);
    }
  }

  lemma {:induction false} SameRollbacksIn(s: seq<string>, a: seq<Tx>, b: seq<Tx>, ms: seq<Mined>)
    requires DescribesAll(a, ms) && DescribesAll(b, ms)
    ensures RolledBackIn(s, a) == RolledBackIn(s, b)
  {
    hide TxHash, SnapshotIdFromResult, Describes;
    if ms != [] {
      var n := |ms| - 1;
      DescribedIsRead(a[n], ms[n]);
      DescribedIsRead(b[n], ms[n]);
      SameRollbacksIn(s, a[..n], b[..n], ms[..n]);
    }
  }
}
