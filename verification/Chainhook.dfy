/** Chainhook deliveries: reading confirmations out of a payload and mirroring them onto the ledger. */
module Chainhook {
  import opened Collections
  import opened Decimals
  import opened Texts
  import opened Ledger

  // ----- the payload

  /** `metadata.result`: a string in 1.x, an object with a `repr` in 2.0. */
  datatype Result = Plain(text: string) | WithRepr(repr: Option<string>) | Missing

  datatype Meta = Meta(success: bool, status: Option<string>, result: Result)

  datatype Tx = Tx(hash: Option<string>, metadata: Option<Meta>)

  datatype Block = Block(index: Option<int>, transactions: Option<seq<Tx>>)

  datatype Sides = Sides(apply: Option<seq<Block>>, rollback: Option<seq<Block>>)

  /** The 2.0 `event` wraps the sides that 1.x puts at the top. */
  datatype Payload = Payload(top: Sides, event: Option<Sides>)

  function Pick(inner: Option<seq<Block>>, outer: Option<seq<Block>>): seq<Block> {
    if inner.Some? then inner.value else if outer.Some? then outer.value else []
  }

  function ApplyBlocks(p: Payload): seq<Block> {
    Pick(if p.event.Some? then p.event.value.apply else None, p.top.apply)
  }

  function RollbackBlocks(p: Payload): seq<Block> {
    Pick(if p.event.Some? then p.event.value.rollback else None, p.top.rollback)
  }

  function StripPrefix(s: string): string {
    if "0x" <= s then s[2..] else s
  }

  function NormalizeTxId(s: string): string { StripPrefix(Lower(s)) }

  function TxHash(tx: Tx): Option<string> {
    if tx.hash.Some? && |StripPrefix(tx.hash.value)| == 64 && AllHex(StripPrefix(tx.hash.value))
    then Some(NormalizeTxId(tx.hash.value)) else None
  }

  const OK_OPEN := "(ok u"

  /** `(ok uN)`, the contract's own answer. */
  function ParseOk(repr: string): Option<nat> {
    var t := Trim(repr);
    if |t| > |OK_OPEN| + 1 && OK_OPEN <= t && t[|t| - 1] == ')' && AllDigits(t[|OK_OPEN|..|t| - 1])
    then Some(Value(t[|OK_OPEN|..|t| - 1])) else None
  }

  /** The text is the contract's `(ok uN)`, with white space around it or not. */
  ghost predicate OkText(text: string, id: nat) {
    exists digits: string ::
      digits != "" && AllDigits(digits) && Value(digits) == id && Trim(text) == "(ok u" + digits + ")"
  }

  /** Exactly that form is read, and as the number it writes. */
  lemma ParsesExactly(repr: string, id: nat)
    ensures ParseOk(repr) == Some(id) <==> OkText(repr, id)
  {
    var t := Trim(repr);
    if ParseOk(repr) == Some(id) {
      var digits := t[5..|t| - 1];
      assert t == "(ok u" + digits + ")";
    }
    if OkText(repr, id) {
      var digits: string :| digits != "" && AllDigits(digits) && Value(digits) == id && t == "(ok u" + digits + ")";
      assert t[5..|t| - 1] == digits;
    }
  }

  function SnapshotIdFromResult(tx: Tx): Option<nat> {
    if tx.metadata.None? then None
    else
      var meta := tx.metadata.value;
      if !meta.success && meta.status != Some("success") then None
      else match meta.result
        case Plain(text) => ParseOk(text)
        case WithRepr(repr) => if repr.Some? then ParseOk(repr.value) else None
        case Missing => None
  }

  /** The transaction succeeded, in the wording of either version. */
  predicate Succeeded(tx: Tx) {
    tx.metadata.Some? && (tx.metadata.value.success || tx.metadata.value.status == Some("success"))
  }

  /** The transaction succeeded and answered `(ok uN)`, in the shape of either version. */
  ghost predicate Reports(tx: Tx, id: nat) {
    && Succeeded(tx)
    && ((tx.metadata.value.result.Plain? && OkText(tx.metadata.value.result.text, id))
        || (tx.metadata.value.result.WithRepr? && tx.metadata.value.result.repr.Some?
            && OkText(tx.metadata.value.result.repr.value, id)))
  }

  /** Only a success is read as a confirmation, and with the id it answered. */
  lemma SnapshotIdExactly(tx: Tx, id: nat)
    ensures SnapshotIdFromResult(tx) == Some(id) <==> Reports(tx, id)
  {
    hide OkText, ParseOk;
    if tx.metadata.Some? {
      match tx.metadata.value.result {
        case Plain(text) => ParsesExactly(text, id);
        case WithRepr(repr) => if repr.Some? { ParsesExactly(repr.value, id); }
        case Missing =>
      }
    }
  }

  /** The payload's hash is 64 hex digits of any case, with or without 0x, and names the id in lower case. */
  ghost predicate Names(tx: Tx, txId: string) {
    exists body: string :: |body| == 64 && AllHex(body) && txId == Lower(body)
      && (tx.hash == Some(body) || tx.hash == Some("0x" + body))
  }

  lemma HashExactly(tx: Tx, txId: string)
    ensures TxHash(tx) == Some(txId) <==> Names(tx, txId)
  {
    if tx.hash.Some? {
      var hash := tx.hash.value;
      LowerPrefix(hash);
      if TxHash(tx) == Some(txId) {
        var body := StripPrefix(hash);
        assert hash == body || hash == "0x" + body;
      }
      if Names(tx, txId) {
        var body: string :| |body| == 64 && AllHex(body) && txId == Lower(body)
          && (hash == body || hash == "0x" + body);
        assert IsHex(body[1]) && ("0x" + body)[2..] == body;
      }
    }
  }

  lemma LowerPrefix(hash: string)
    ensures AllHex(StripPrefix(hash)) && |StripPrefix(hash)| >= 2 ==>
      StripPrefix(Lower(hash)) == Lower(StripPrefix(hash))
  {
    if AllHex(StripPrefix(hash)) && |StripPrefix(hash)| >= 2 {
      assert IsHex(StripPrefix(hash)[1]);
      if "0x" <= hash {
        assert Lower(hash)[2..] == Lower(hash[2..]);
      } else {
        assert Lower(hash)[1] == Lower(hash[1..2])[0] && Lower(hash)[1] != 'x';
      }
    }
  }

  datatype PublishedSnapshot = PublishedSnapshot(txId: string, snapshotId: nat, blockHeight: Option<int>)

  function Transactions(b: Block): seq<Tx> { if b.transactions.Some? then b.transactions.value else [] }

  function ConfirmedTx(tx: Tx, height: Option<int>): seq<PublishedSnapshot> {
    var id, snapshot := TxHash(tx), SnapshotIdFromResult(tx);
    if id.Some? && id.value != "" && snapshot.Some? then [PublishedSnapshot(id.value, snapshot.value, height)] else []
  }

  function ConfirmedIn(txs: seq<Tx>, height: Option<int>): seq<PublishedSnapshot> {
    if txs == [] then [] else ConfirmedIn(txs[..|txs| - 1], height) + ConfirmedTx(txs[|txs| - 1], height)
  }

  function Confirmed(blocks: seq<Block>): seq<PublishedSnapshot> {
    if blocks == [] then []
    else
      var b := blocks[|blocks| - 1];
      Confirmed(blocks[..|blocks| - 1]) + ConfirmedIn(Transactions(b), b.index)
  }

  /** Adding to an insertion-ordered Set. */
  function AddNew(s: seq<string>, tx: Tx): seq<string> {
    var id := TxHash(tx);
    if id.Some? && id.value != "" && id.value !in s then s + [id.value] else s
  }

  function RolledBackIn(s: seq<string>, txs: seq<Tx>): seq<string> {
    if txs == [] then s else AddNew(RolledBackIn(s, txs[..|txs| - 1]), txs[|txs| - 1])
  }

  function RolledBack(blocks: seq<Block>): seq<string> {
    if blocks == [] then [] else RolledBackIn(RolledBack(blocks[..|blocks| - 1]), Transactions(blocks[|blocks| - 1]))
  }

  /** What is collected is exactly what some block of the delivery reports, at that block's height. */
  ghost predicate ReportedIn(b: Block, item: PublishedSnapshot) {
    item.blockHeight == b.index
    && exists tx :: tx in Transactions(b) && Names(tx, item.txId) && Reports(tx, item.snapshotId)
  }

  lemma ConfirmedTxExactly(tx: Tx, height: Option<int>, item: PublishedSnapshot)
    ensures item in ConfirmedTx(tx, height)
      <==> item.blockHeight == height && Names(tx, item.txId) && Reports(tx, item.snapshotId)
  {
    hide TxHash, SnapshotIdFromResult, Reports;
    HashExactly(tx, item.txId);
    SnapshotIdExactly(tx, item.snapshotId);
  }

  lemma {:induction false} ConfirmedInExactly(txs: seq<Tx>, height: Option<int>, item: PublishedSnapshot)
    ensures item in ConfirmedIn(txs, height)
      <==> item.blockHeight == height && exists tx :: tx in txs && Names(tx, item.txId) && Reports(tx, item.snapshotId)
  {
    hide ConfirmedTx, Names, Reports;
    if txs != [] {
      var n := |txs| - 1;
      ConfirmedInExactly(txs[..n], height, item);
      ConfirmedTxExactly(txs[n], height, item);
      assert txs == txs[..n] + [txs[n]];
    }
  }

  lemma ConfirmedBlock(b: Block, item: PublishedSnapshot)
    ensures item in ConfirmedIn(Transactions(b), b.index) <==> ReportedIn(b, item)
  {
    hide ConfirmedIn, Names, Reports;
    ConfirmedInExactly(Transactions(b), b.index, item);
  }

  lemma {:induction false} ConfirmedExactly(blocks: seq<Block>, item: PublishedSnapshot)
    ensures item in Confirmed(blocks) <==> exists b :: b in blocks && ReportedIn(b, item)
  {
    hide ConfirmedIn, ReportedIn;
    if blocks != [] {
      var n := |blocks| - 1;
      ConfirmedExactly(blocks[..n], item);
      ConfirmedBlock(blocks[n], item);
      assert blocks == blocks[..n] + [blocks[n]];
    }
  }

  /** A transaction that did not succeed confirms nothing, whatever its result says. */
  lemma FailureConfirmsNothing(tx: Tx, height: Option<int>)
    requires !Succeeded(tx)
    ensures ConfirmedTx(tx, height) == []
  {
    hide SnapshotIdFromResult;
    var found := ConfirmedTx(tx, height);
    if found != [] { ConfirmedTxExactly(tx, height, found[0]); }
  }

  ghost predicate NamedIn(b: Block, txId: string) { exists tx :: tx in Transactions(b) && Names(tx, txId) }

  predicate NoRepeats(s: seq<string>) { forall i, j | 0 <= i < j < |s| :: s[i] != s[j] }

  lemma {:induction false} RolledBackInExactly(s: seq<string>, txs: seq<Tx>, txId: string)
    requires NoRepeats(s)
    ensures NoRepeats(RolledBackIn(s, txs))
    ensures txId in RolledBackIn(s, txs) <==> txId in s || exists tx :: tx in txs && Names(tx, txId)
  {
    hide TxHash, Names;
    if txs != [] {
      var n := |txs| - 1;
      RolledBackInExactly(s, txs[..n], txId);
      HashExactly(txs[n], txId);
      NamedIsNotEmpty(txs[n]);
      assert txs == txs[..n] + [txs[n]];
    }
  }

  lemma NamedIsNotEmpty(tx: Tx)
    ensures TxHash(tx) != Some("")
  {
    HashExactly(tx, "");
  }

  lemma RolledBackBlock(s: seq<string>, b: Block, txId: string)
    requires NoRepeats(s)
    ensures NoRepeats(RolledBackIn(s, Transactions(b)))
    ensures txId in RolledBackIn(s, Transactions(b)) <==> txId in s || NamedIn(b, txId)
  {
    hide RolledBackIn, Names;
    RolledBackInExactly(s, Transactions(b), txId);
  }

  /** Rolled back is each transaction that some block of the delivery names, once. */
  lemma {:induction false} RolledBackExactly(blocks: seq<Block>, txId: string)
    ensures NoRepeats(RolledBack(blocks))
    ensures txId in RolledBack(blocks) <==> exists b :: b in blocks && NamedIn(b, txId)
  {
    hide RolledBackIn, NamedIn;
    if blocks != [] {
      var n := |blocks| - 1;
      RolledBackExactly(blocks[..n], txId);
      RolledBackBlock(RolledBack(blocks[..n]), blocks[n], txId);
      assert blocks == blocks[..n] + [blocks[n]];
    }
  }

  /** The 2.0 side wins where it is present, and the 1.x side stands in where it is not. */
  lemma InnerSideWins(top: Sides, inner: Sides, blocks: seq<Block>)
    ensures inner.apply == Some(blocks) ==> ApplyBlocks(Payload(top, Some(inner))) == blocks
    ensures inner.rollback == Some(blocks) ==> RollbackBlocks(Payload(top, Some(inner))) == blocks
    ensures top.apply == Some(blocks) && inner.apply.None? ==> ApplyBlocks(Payload(top, Some(inner))) == blocks
    ensures top.rollback == Some(blocks) && inner.rollback.None? ==> RollbackBlocks(Payload(top, Some(inner))) == blocks
  {
  }

  method CollectConfirmed(blocks: seq<Block>) returns (confirmed: seq<PublishedSnapshot>)
    ensures confirmed == Confirmed(blocks)
  {
    hide ConfirmedTx;
    confirmed := [];
    for i := 0 to |blocks|
      invariant confirmed == Confirmed(blocks[..i])
    {
      assert blocks[..i + 1][..i] == blocks[..i];
      var txs := Transactions(blocks[i]);
      ghost var before := confirmed;
      for j := 0 to |txs|
        invariant confirmed == before + ConfirmedIn(txs[..j], blocks[i].index)
      {
        assert txs[..j + 1][..j] == txs[..j];
        ghost var here := ConfirmedIn(txs[..j], blocks[i].index);
        var found := ConfirmedTx(txs[j], blocks[i].index);
        assert before + (here + found) == before + here + found;
        confirmed := confirmed + found;
      }
      assert txs[..|txs|] == txs;
    }
    assert blocks[..|blocks|] == blocks;
  }

  method CollectRolledBack(blocks: seq<Block>) returns (rolledBack: seq<string>)
    ensures rolledBack == RolledBack(blocks)
  {
    hide TxHash;
    rolledBack := [];
    for i := 0 to |blocks|
      invariant rolledBack == RolledBack(blocks[..i])
    {
      assert blocks[..i + 1][..i] == blocks[..i];
      var txs := Transactions(blocks[i]);
      for j := 0 to |txs|
        invariant rolledBack == RolledBackIn(RolledBack(blocks[..i]), txs[..j])
      {
        assert txs[..j + 1][..j] == txs[..j];
        var txId := TxHash(txs[j]);
        if txId.Some? && txId.value != "" && txId.value !in rolledBack {
          rolledBack := rolledBack + [txId.value];
        }
      }
      assert txs[..|txs|] == txs;
    }
    assert blocks[..|blocks|] == blocks;
  }

  method ExtractRegistryConfirmations(p: Payload) returns (confirmed: seq<PublishedSnapshot>, rolledBack: seq<string>)
    ensures confirmed == Confirmed(ApplyBlocks(p)) && rolledBack == RolledBack(RollbackBlocks(p))
  {
    confirmed := CollectConfirmed(ApplyBlocks(p));
    rolledBack := CollectRolledBack(RollbackBlocks(p));
  }

  // ----- the ledger side

  /** The worker stores whatever the broadcast returned, with or without 0x. */
  predicate RowMatches(r: Row, txId: string) {
    r.onchainTxId == Some(txId) || r.onchainTxId == Some("0x" + txId)
  }

  datatype Update = Update(txId: string, value: Option<nat>)

  function UpdateRow(r: Row, u: Update): Row {
    if RowMatches(r, u.txId) then r.(onchainSnapshotId := u.value) else r
  }

  function UpdateMany(rows: seq<Row>, u: Update): (r: seq<Row>)
    ensures |r| == |rows|
  {
    seq(|rows|, i requires 0 <= i < |rows| => UpdateRow(rows[i], u))
  }

  function MatchCount(rows: seq<Row>, txId: string): nat {
    if rows == [] then 0
    else MatchCount(rows[..|rows| - 1], txId) + (if RowMatches(rows[|rows| - 1], txId) then 1 else 0)
  }

  function Matching(rows: seq<Row>, txId: string): set<int> {
    set i | 0 <= i < |rows| && (rows[i].onchainTxId == Some(txId) || rows[i].onchainTxId == Some("0x" + txId))
  }

  /** The counters count the rows that name the transaction in either spelling. */
  lemma {:induction false} CountsMatchingRows(rows: seq<Row>, txId: string)
    ensures MatchCount(rows, txId) == |Matching(rows, txId)|
  {
    if rows != [] {
      var n := |rows| - 1;
      CountsMatchingRows(rows[..n], txId);
      var before := Matching(rows[..n], txId);
      assert Matching(rows, txId) == before + (if RowMatches(rows[n], txId) then {n} else {});
    }
  }

  function Updated(rows: seq<Row>, us: seq<Update>): (r: seq<Row>)
    ensures |r| == |rows|
  {
    if us == [] then rows else UpdateMany(Updated(rows, us[..|us| - 1]), us[|us| - 1])
  }

  function Touched(rows: seq<Row>, us: seq<Update>): nat {
    if us == [] then 0
    else Touched(rows, us[..|us| - 1]) + MatchCount(Updated(rows, us[..|us| - 1]), us[|us| - 1].txId)
  }

  function Clearings(txIds: seq<string>): (us: seq<Update>)
    ensures |us| == |txIds|
  {
    seq(|txIds|, i requires 0 <= i < |txIds| => Update(txIds[i], None))
  }

  function Confirmings(items: seq<PublishedSnapshot>): (us: seq<Update>)
    ensures |us| == |items|
  {
    seq(|items|, i requires 0 <= i < |items| => Update(items[i].txId, Some(items[i].snapshotId)))
  }

  function UpdatesOf(p: Payload): seq<Update> {
    Clearings(RolledBack(RollbackBlocks(p))) + Confirmings(Confirmed(ApplyBlocks(p)))
  }

  lemma UpdateStep(rows: seq<Row>, us: seq<Update>, i: nat)
    requires i < |us|
    ensures Updated(rows, us[..i + 1]) == UpdateMany(Updated(rows, us[..i]), us[i])
    ensures Touched(rows, us[..i + 1]) == Touched(rows, us[..i]) + MatchCount(Updated(rows, us[..i]), us[i].txId)
  {
    hide UpdateMany, MatchCount;
    assert us[..i + 1][..i] == us[..i];
  }

  /** `confirmAttestations`: rollbacks first, then confirmations. */
  method ConfirmAttestations(store: SnapshotStore, p: Payload) returns (cleared: nat, matched: nat)
    modifies store
    ensures store.rows == Updated(old(store.rows), UpdatesOf(p))
    ensures cleared == Touched(old(store.rows), Clearings(RolledBack(RollbackBlocks(p))))
    ensures cleared + matched == Touched(old(store.rows), UpdatesOf(p))
  {
    hide Confirmed, RolledBack, UpdateMany, MatchCount, Updated, Touched;
    var confirmed, rolledBack := ExtractRegistryConfirmations(p);
    ghost var start, us := store.rows, UpdatesOf(p);
    ghost var n := |rolledBack|;
    ghost var clearings := Clearings(rolledBack);
    NoUpdates(start);
    assert us[..0] == [];
    cleared, matched := 0, 0;
    for i := 0 to |rolledBack|
      modifies store
      invariant store.rows == Updated(start, us[..i]) && cleared == Touched(start, us[..i])
    {
      UpdateStep(start, us, i);
      cleared := cleared + MatchCount(store.rows, rolledBack[i]);
      store.rows := UpdateMany(store.rows, Update(rolledBack[i], None));
    }
    assert us[..n] == clearings;
    for i := 0 to |confirmed|
      modifies store
      invariant store.rows == Updated(start, us[..n + i]) && cleared + matched == Touched(start, us[..n + i])
    {
      UpdateStep(start, us, n + i);
      matched := matched + MatchCount(store.rows, confirmed[i].txId);
      store.rows := UpdateMany(store.rows, Update(confirmed[i].txId, Some(confirmed[i].snapshotId)));
    }
    assert us[..n + |confirmed|] == us;
  }

  lemma NoUpdates(rows: seq<Row>)
    ensures Updated(rows, []) == rows && Touched(rows, []) == 0
  {
  }
}
