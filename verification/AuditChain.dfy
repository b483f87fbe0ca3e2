/**
  * The table of src/infrastructure/audit/sqlite_audit_repository.py, as `ORDER BY sequence_no`
  * lists it. Rows may hold anything SQLite can store, so that a tampered table is a value too.
  */
module AuditChain {
  import opened Basics
  import opened SqlValues
  import opened Integrity
  import Json
  import Utf8

  datatype Row = Row(
    sequenceNo: Cell,
    id: Cell,
    timestamp: Cell,
    eventType: Cell,
    actorUserId: Cell,
    targetId: Cell,
    sessionId: Cell,
    result: Cell,
    reasonCode: Cell,
    previousMac: Cell,
    eventMac: Cell)

  predicate IsMac(c: Cell) {
    c.Blob? && |c.b| == MAC_SIZE
  }

  predicate TextOrNull(c: Cell) {
    c.Null? || c.Text?
  }

  /** `_validate_stored_row`: the column types that verification insists on. */
  predicate WellTyped(row: Row) {
    && row.sequenceNo.Integer?
    && row.id.Text? && row.timestamp.Text? && row.eventType.Text?
    && row.actorUserId.Text? && row.targetId.Text? && row.result.Text?
    && TextOrNull(row.sessionId) && TextOrNull(row.reasonCode)
    && IsMac(row.previousMac) && IsMac(row.eventMac)
  }

  function TextOf(c: Cell): Option<string> {
    if c.Text? then Some(c.s) else None
  }

  function RecordOf(row: Row): Record
    requires WellTyped(row)
  {
    Record(row.id.s, row.timestamp.s, row.eventType.s, row.actorUserId.s, row.targetId.s,
           TextOf(row.sessionId), row.result.s, TextOf(row.reasonCode))
  }

  function StoredRow(sequenceNo: int, r: Record, previousMac: Mac, eventMac: Mac): (row: Row)
    ensures WellTyped(row) && RecordOf(row) == r
  {
    Row(Integer(sequenceNo), Text(r.id), Text(r.timestamp), Text(r.eventType), Text(r.actorUserId),
        Text(r.targetId), SqlValues.OptionalText(r.sessionId), Text(r.result),
        SqlValues.OptionalText(r.reasonCode), Blob(previousMac), Blob(eventMac))
  }

  function RowMessage(row: Row): Bytes
    requires WellTyped(row)
  {
    Message(row.sequenceNo.n, RecordOf(row), row.previousMac.b)
  }

  // ---------------------------------------------------------------- verification

  /** One row, seen with the sequence number and previous MAC its position calls for. */
  predicate Linked(hmac: MacFunction, key: Key, row: Row, sequenceNo: int, previousMac: Mac) {
    && WellTyped(row)
    && row.sequenceNo.n == sequenceNo
    && row.previousMac.b == previousMac
    && row.eventMac.b == hmac(key, RowMessage(row))
  }

  predicate LinkedAt(hmac: MacFunction, key: Key, rows: seq<Row>, i: nat)
    requires i < |rows|
  {
    if i == 0 then Linked(hmac, key, rows[0], 1, GENESIS_MAC)
    else IsMac(rows[i - 1].eventMac) && Linked(hmac, key, rows[i], i + 1, rows[i - 1].eventMac.b)
  }

  /** A table verifies when every row is linked: numbers 1..n, each MAC chained to the one before. */
  ghost predicate Verifies(hmac: MacFunction, key: Key, rows: seq<Row>) {
    forall i :: 0 <= i < |rows| ==> LinkedAt(hmac, key, rows, i)
  }

  /** `_verify_rows`: accepts by returning, rejects by raising. */
  method VerifyRows(hmac: MacFunction, key: Key, rows: seq<Row>) returns (accepted: bool)
    ensures accepted <==> Verifies(hmac, key, rows)
  {
    hide CanonicalEventBytes;
    var expectedSequence := 1;
    var expectedPreviousMac: Mac := GENESIS_MAC;
    for k := 0 to |rows|
      invariant expectedSequence == k + 1
      invariant forall i :: 0 <= i < k ==> LinkedAt(hmac, key, rows, i)
      invariant k > 0 ==> IsMac(rows[k - 1].eventMac)
      invariant expectedPreviousMac == if k == 0 then GENESIS_MAC else rows[k - 1].eventMac.b
    {
      var row := rows[k];
      if !WellTyped(row) {
        assert !LinkedAt(hmac, key, rows, k);
        return false;
      }
      if row.sequenceNo.n != expectedSequence || row.previousMac.b != expectedPreviousMac {
        assert !LinkedAt(hmac, key, rows, k);
        return false;
      }
      var canonical := CanonicalEventBytes(row.sequenceNo.n, RecordOf(row));
      var expectedEventMac := CalculateEventMac(hmac, key, canonical, row.previousMac.b);
      if row.eventMac.b != expectedEventMac {
        assert !LinkedAt(hmac, key, rows, k);
        return false;
      }
      expectedSequence := expectedSequence + 1;
      expectedPreviousMac := row.eventMac.b;
    }
    return true;
  }

  lemma PrefixVerifies(hmac: MacFunction, key: Key, rows: seq<Row>, k: nat)
    requires Verifies(hmac, key, rows) && k <= |rows|
    ensures Verifies(hmac, key, rows[..k])
  {
    hide CanonicalEventBytes, Linked;
    forall i | 0 <= i < k
      ensures LinkedAt(hmac, key, rows[..k], i)
    {
      assert LinkedAt(hmac, key, rows, i);
    }
  }

  lemma VerifiesSnoc(hmac: MacFunction, key: Key, rows: seq<Row>, row: Row)
    ensures Verifies(hmac, key, rows + [row]) <==>
            Verifies(hmac, key, rows) && LinkedAt(hmac, key, rows + [row], |rows|)
  {
    hide CanonicalEventBytes;
    var longer := rows + [row];
    assert longer[..|rows|] == rows;
    forall i | 0 <= i < |rows|
      ensures LinkedAt(hmac, key, longer, i) <==> LinkedAt(hmac, key, rows, i)
    {
    }
    if Verifies(hmac, key, longer) {
      PrefixVerifies(hmac, key, longer, |rows|);
    }
  }

  // ---------------------------------------------------------------- append

  /** `_next_chain_link`: only the head of the table is looked at. */
  function NextChainLink(head: Option<Row>): (link: Option<(int, Mac)>)
    ensures link.Some? ==> link.value.0 >= 1
  {
    match head
    case None => Some((1, GENESIS_MAC))
    case Some(row) =>
      if row.sequenceNo.Integer? && row.sequenceNo.n >= 1 && IsMac(row.eventMac)
      then Some((row.sequenceNo.n + 1, row.eventMac.b))
      else None
  }

  /** `SELECT ... ORDER BY sequence_no DESC LIMIT 1`. */
  function Head(rows: seq<Row>): Option<Row> {
    if rows == [] then None else Some(rows[|rows| - 1])
  }

  function ChainedRow(hmac: MacFunction, key: Key, link: (int, Mac), r: Record): (row: Row)
    ensures Linked(hmac, key, row, link.0, link.1) && RecordOf(row) == r
  {
    StoredRow(link.0, r, link.1,
              CalculateEventMac(hmac, key, CanonicalEventBytes(link.0, r), link.1))
  }

  /** The row that a successful append adds, if the head of the table is valid. */
  function NextRow(hmac: MacFunction, key: Key, rows: seq<Row>, r: Record): Option<Row> {
    var link :- NextChainLink(Head(rows));
    Some(ChainedRow(hmac, key, link, r))
  }

  /**
    * Append neither breaks nor launders a chain: although it looks at the head alone, the longer
    * table verifies exactly when the table it started from did, whatever that table holds.
    */
  lemma AppendNeitherBreaksNorLaunders(hmac: MacFunction, key: Key, rows: seq<Row>, r: Record)
    requires NextRow(hmac, key, rows, r).Some?
    ensures Verifies(hmac, key, rows + [NextRow(hmac, key, rows, r).value]) <==>
            Verifies(hmac, key, rows)
  {
    hide CanonicalEventBytes;
    VerifiesSnoc(hmac, key, rows, NextRow(hmac, key, rows, r).value);
    if Verifies(hmac, key, rows) && rows != [] {
      assert LinkedAt(hmac, key, rows, |rows| - 1);
    }
  }

  /** A verifying table always has a next row, numbered one past its length and storing the record. */
  lemma VerifiedTableExtends(hmac: MacFunction, key: Key, rows: seq<Row>, r: Record)
    requires Verifies(hmac, key, rows)
    ensures NextRow(hmac, key, rows, r).Some?
    ensures NextRow(hmac, key, rows, r).value.sequenceNo == Integer(|rows| + 1)
    ensures WellTyped(NextRow(hmac, key, rows, r).value) && RecordOf(NextRow(hmac, key, rows, r).value) == r
  {
    hide CanonicalEventBytes;
    if rows != [] {
      assert LinkedAt(hmac, key, rows, |rows| - 1);
    }
  }

  /** `ORDER BY sequence_no` over a column that is unique. */
  ghost predicate Ordered(rows: seq<Row>) {
    forall i, j :: 0 <= i < j < |rows| ==> Before(rows[i].sequenceNo, rows[j].sequenceNo)
  }

  /** The appended row sorts after every row there is, so listing the table puts it last. */
  lemma AppendKeepsOrder(hmac: MacFunction, key: Key, rows: seq<Row>, r: Record)
    requires Ordered(rows) && NextRow(hmac, key, rows, r).Some?
    ensures Ordered(rows + [NextRow(hmac, key, rows, r).value])
  {
    hide CanonicalEventBytes;
    var row := NextRow(hmac, key, rows, r).value;
    if rows != [] {
      var head := rows[|rows| - 1];
      assert Before(head.sequenceNo, row.sequenceNo);
      forall i | 0 <= i < |rows| - 1
        ensures Before(rows[i].sequenceNo, row.sequenceNo)
      {
        BeforeTransitive(rows[i].sequenceNo, head.sequenceNo, row.sequenceNo);
      }
    }
  }

  // ---------------------------------------------------------------- logs made by appends alone

  /** The table after the given records have been appended, in order, to `rows`. */
  function Extend(hmac: MacFunction, key: Key, rows: seq<Row>, records: seq<Record>): Option<seq<Row>>
    decreases |records|
  {
    if records == [] then Some(rows)
    else
      var earlier :- Extend(hmac, key, rows, records[..|records| - 1]);
      var row :- NextRow(hmac, key, earlier, records[|records| - 1]);
      Some(earlier + [row])
  }

  /** From position `start` on, the table holds exactly these records in this order. */
  ghost predicate Stores(table: seq<Row>, start: nat, records: seq<Record>) {
    && |table| == start + |records|
    && forall i :: start <= i < |table| ==> WellTyped(table[i]) && RecordOf(table[i]) == records[i - start]
  }

  /** From a verifying table every sequence of appends succeeds, verifies, and stores the records in order. */
  lemma {:induction false} ExtendVerifies(hmac: MacFunction, key: Key, rows: seq<Row>, records: seq<Record>)
    requires Verifies(hmac, key, rows)
    ensures var log := Extend(hmac, key, rows, records);
            && log.Some?
            && Verifies(hmac, key, log.value)
            && rows <= log.value
            && Stores(log.value, |rows|, records)
    decreases |records|
  {
    hide CanonicalEventBytes;
    if records != [] {
      var last := |records| - 1;
      ExtendVerifies(hmac, key, rows, records[..last]);
      var earlier := Extend(hmac, key, rows, records[..last]).value;
      VerifiedTableExtends(hmac, key, earlier, records[last]);
      AppendNeitherBreaksNorLaunders(hmac, key, earlier, records[last]);
    }
  }

  // ---------------------------------------------------------------- tamper evidence

  /** Some row of the log was authenticated over exactly these bytes. */
  ghost predicate Authenticated(log: seq<Row>, m: Bytes) {
    exists j :: 0 <= j < |log| && WellTyped(log[j]) && RowMessage(log[j]) == m
  }

  /** A row carrying a valid MAC on a message that no committed append authenticated. */
  ghost predicate Forged(hmac: MacFunction, key: Key, log: seq<Row>, row: Row) {
    && WellTyped(row)
    && row.eventMac.b == hmac(key, RowMessage(row))
    && !Authenticated(log, RowMessage(row))
  }

  ghost predicate HoldsForgery(hmac: MacFunction, key: Key, log: seq<Row>, table: seq<Row>) {
    exists i :: 0 <= i < |table| && Forged(hmac, key, log, table[i])
  }

  /** Rows of two verifying tables that authenticate the same message are the same row at the same place. */
  lemma SameMessageSameRow(hmac: MacFunction, key: Key, s: seq<Row>, i: nat, t: seq<Row>, j: nat)
    requires Verifies(hmac, key, s) && Verifies(hmac, key, t)
    requires i < |s| && j < |t|
    requires WellTyped(s[i]) && WellTyped(t[j]) && RowMessage(s[i]) == RowMessage(t[j])
    ensures i == j && s[i] == t[j]
  {
    assert LinkedAt(hmac, key, s, i) && LinkedAt(hmac, key, t, j);
    MessageInjective(s[i].sequenceNo.n, RecordOf(s[i]), s[i].previousMac.b,
                     t[j].sequenceNo.n, RecordOf(t[j]), t[j].previousMac.b);
    SameRecordSameCells(s[i], t[j]);
  }

  lemma SameRecordSameCells(a: Row, b: Row)
    requires WellTyped(a) && WellTyped(b) && RecordOf(a) == RecordOf(b)
    ensures a.id == b.id && a.timestamp == b.timestamp && a.eventType == b.eventType
    ensures a.actorUserId == b.actorUserId && a.targetId == b.targetId && a.sessionId == b.sessionId
    ensures a.result == b.result && a.reasonCode == b.reasonCode
  {
  }

  lemma UnforgedRowIsLogged(hmac: MacFunction, key: Key, log: seq<Row>, table: seq<Row>, i: nat)
    requires Verifies(hmac, key, log) && Verifies(hmac, key, table)
    requires i < |table| && !Forged(hmac, key, log, table[i])
    ensures i < |log| && table[i] == log[i]
  {
    hide CanonicalEventBytes;
    assert LinkedAt(hmac, key, table, i);
    var j :| 0 <= j < |log| && WellTyped(log[j]) && RowMessage(log[j]) == RowMessage(table[i]);
    SameMessageSameRow(hmac, key, table, i, log, j);
  }

  /**
    * Exact tamper evidence. Against a log that verifies, the tables that verify without a forgery
    * are the prefixes of that log and nothing else: removing a suffix is the only edit that goes
    * unnoticed.
    */
  lemma TamperEvidence(hmac: MacFunction, key: Key, log: seq<Row>, table: seq<Row>)
    requires Verifies(hmac, key, log)
    ensures Verifies(hmac, key, table) && !HoldsForgery(hmac, key, log, table) <==> table <= log
  {
    hide CanonicalEventBytes;
    if Verifies(hmac, key, table) && !HoldsForgery(hmac, key, log, table) {
      forall i | 0 <= i < |table|
        ensures i < |log| && table[i] == log[i]
      {
        UnforgedRowIsLogged(hmac, key, log, table, i);
      }
      if table != [] {
        UnforgedRowIsLogged(hmac, key, log, table, |table| - 1);
      }
    }
    if table <= log {
      PrefixVerifies(hmac, key, log, |table|);
      assert log[..|table|] == table;
      forall i | 0 <= i < |table|
        ensures !Forged(hmac, key, log, table[i])
      {
        assert table[i] == log[i];
      }
    }
  }

  /** The same for the log that committed appends make from an empty table. */
  lemma CommittedLogIsTamperEvident(hmac: MacFunction, key: Key, records: seq<Record>, table: seq<Row>)
    ensures Extend(hmac, key, [], records).Some?
    ensures var log := Extend(hmac, key, [], records).value;
            Verifies(hmac, key, table) && !HoldsForgery(hmac, key, log, table) <==> table <= log
  {
    hide CanonicalEventBytes;
    ExtendVerifies(hmac, key, [], records);
    TamperEvidence(hmac, key, Extend(hmac, key, [], records).value, table);
  }

  // ---------------------------------------------------------------- the head commits to the history

  /** Two different authenticated messages, one from each table, with one MAC. */
  ghost predicate Collision(hmac: MacFunction, key: Key, a: Row, b: Row) {
    && WellTyped(a) && WellTyped(b)
    && RowMessage(a) != RowMessage(b)
    && hmac(key, RowMessage(a)) == hmac(key, RowMessage(b))
  }

  ghost predicate TablesCollide(hmac: MacFunction, key: Key, s: seq<Row>, t: seq<Row>) {
    exists i, j :: 0 <= i < |s| && 0 <= j < |t| && Collision(hmac, key, s[i], t[j])
  }

  /**
    * Two tables that verify and end in the same MAC are equal row by row, or between them they
    * exhibit two messages with one MAC.
    */
  lemma {:induction false} HeadCommitsToHistory(hmac: MacFunction, key: Key, s: seq<Row>, t: seq<Row>)
    requires Verifies(hmac, key, s) && Verifies(hmac, key, t)
    requires s != [] && t != []
    requires s[|s| - 1].eventMac == t[|t| - 1].eventMac
    ensures s == t || TablesCollide(hmac, key, s, t)
    decreases |s|
  {
    hide CanonicalEventBytes;
    var i, j := |s| - 1, |t| - 1;
    assert LinkedAt(hmac, key, s, i) && LinkedAt(hmac, key, t, j);
    if RowMessage(s[i]) != RowMessage(t[j]) {
      assert Collision(hmac, key, s[i], t[j]);
    } else {
      SameMessageSameRow(hmac, key, s, i, t, j);
      if i > 0 {
        PrefixVerifies(hmac, key, s, i);
        PrefixVerifies(hmac, key, t, i);
        assert s[i - 1].eventMac == t[i - 1].eventMac;
        HeadCommitsToHistory(hmac, key, s[..i], t[..i]);
        if s[..i] == t[..i] {
          assert s == s[..i] + [s[i]] && t == t[..i] + [t[i]];
        } else {
          var x, y :| 0 <= x < i && 0 <= y < i && Collision(hmac, key, s[..i][x], t[..i][y]);
          assert Collision(hmac, key, s[x], t[y]);
        }
      }
    }
  }

  // ---------------------------------------------------------------- the chain in terms of cells

  /** The JSON value of a cell that holds an integer, a text or null. */
  function CellScalar(c: Cell): Json.Scalar {
    match c
    case Integer(n) => Json.Number(n)
    case Text(s) => Json.Str(s)
    case _ => Json.Null
  }

  /** The nine authenticated columns of a row under the names that the authenticated text gives them. */
  function NamedCells(row: Row): seq<Json.Field> {
    [ Json.Field("sequence_no", CellScalar(row.sequenceNo)),
      Json.Field("id", CellScalar(row.id)),
      Json.Field("timestamp", CellScalar(row.timestamp)),
      Json.Field("event_type", CellScalar(row.eventType)),
      Json.Field("actor_user_id", CellScalar(row.actorUserId)),
      Json.Field("target_id", CellScalar(row.targetId)),
      Json.Field("session_id", CellScalar(row.sessionId)),
      Json.Field("result", CellScalar(row.result)),
      Json.Field("reason_code", CellScalar(row.reasonCode)) ]
  }

  /** The row's cells are a link numbered `n` after `previous`: 32 bytes that the row repeats before its own MAC. */
  ghost predicate LinkCells(hmac: MacFunction, key: Key, row: Row, n: int, previous: Cell) {
    && row.sequenceNo == Integer(n)
    && row.id.Text? && row.timestamp.Text? && row.eventType.Text? && row.actorUserId.Text?
    && row.targetId.Text? && row.result.Text?
    && (row.sessionId.Null? || row.sessionId.Text?) && (row.reasonCode.Null? || row.reasonCode.Text?)
    && row.previousMac == previous && previous.Blob? && |previous.b| == 32
    && row.eventMac == Blob(hmac(key, Utf8.Encode(Json.PrintDocument(NamedCells(row))) + previous.b))
  }

  /** What the row at position `i` must follow: 32 zero bytes at first, then the MAC of the row before. */
  function PreviousCell(rows: seq<Row>, i: nat): Cell
    requires i <= |rows|
  {
    if i == 0 then Blob(seq(32, _ => 0)) else rows[i - 1].eventMac
  }

  lemma GenesisIsZeros()
    ensures GENESIS_MAC == seq(32, _ => 0)
  {
  }

  lemma RecordIsNamedCells(row: Row)
    requires WellTyped(row)
    ensures Fields(row.sequenceNo.n, RecordOf(row)) == NamedCells(row)
  {
  }

  lemma LinkedIsLinkCells(hmac: MacFunction, key: Key, row: Row, n: int, previous: Mac)
    ensures Linked(hmac, key, row, n, previous) <==> LinkCells(hmac, key, row, n, Blob(previous))
  {
    hide Json.PrintDocument, Utf8.Encode, NamedCells, Fields;
    if WellTyped(row) {
      RecordIsNamedCells(row);
    }
  }

  /**
    * A table verifies exactly when its rows are numbered 1, 2, 3 and so on, each is well typed and
    * repeats the MAC of the row before (32 zero bytes at first), and each carries the MAC of its own
    * named cells followed by those 32 bytes.
    */
  lemma VerifiesInCells(hmac: MacFunction, key: Key, rows: seq<Row>)
    ensures Verifies(hmac, key, rows) <==>
            forall i :: 0 <= i < |rows| ==> LinkCells(hmac, key, rows[i], i + 1, PreviousCell(rows, i))
  {
    hide Linked, LinkCells, WellTyped;
    GenesisIsZeros();
    forall i | 0 <= i < |rows|
      ensures LinkCells(hmac, key, rows[i], i + 1, PreviousCell(rows, i)) ==> IsMac(PreviousCell(rows, i))
    {
      PreviousIsMac(hmac, key, rows[i], i + 1, PreviousCell(rows, i));
    }
    forall i | 0 <= i < |rows| && IsMac(PreviousCell(rows, i))
      ensures LinkedAt(hmac, key, rows, i) <==> LinkCells(hmac, key, rows[i], i + 1, PreviousCell(rows, i))
    {
      LinkedIsLinkCells(hmac, key, rows[i], i + 1, PreviousCell(rows, i).b);
    }
    forall i | 0 <= i < |rows| && LinkedAt(hmac, key, rows, i)
      ensures IsMac(PreviousCell(rows, i))
    {
    }
  }

  lemma PreviousIsMac(hmac: MacFunction, key: Key, row: Row, n: int, previous: Cell)
    ensures LinkCells(hmac, key, row, n, previous) ==> IsMac(previous)
  {
    hide Json.PrintDocument, Utf8.Encode, NamedCells;
  }

  function TextOrNullCell(t: Option<string>): Cell {
    if t.None? then Null else Text(t.value)
  }

  /** The row holds this record, column by column. */
  ghost predicate RowHolds(row: Row, r: Record) {
    && row.id == Text(r.id) && row.timestamp == Text(r.timestamp) && row.eventType == Text(r.eventType)
    && row.actorUserId == Text(r.actorUserId) && row.targetId == Text(r.targetId)
    && row.sessionId == TextOrNullCell(r.sessionId) && row.result == Text(r.result)
    && row.reasonCode == TextOrNullCell(r.reasonCode)
  }

  lemma RecordOfIsHeld(row: Row)
    requires WellTyped(row)
    ensures RowHolds(row, RecordOf(row))
  {
  }

  /**
    * What an append adds to any table, told by its last row: nothing when that row's number is no
    * positive integer or its MAC is not 32 bytes, otherwise the next link, holding the record.
    */
  lemma NextRowInCells(hmac: MacFunction, key: Key, rows: seq<Row>, r: Record)
    ensures var next, n := NextRow(hmac, key, rows, r), |rows|;
            && (next.Some? <==>
                  n == 0
                  || (rows[n - 1].sequenceNo.Integer? && rows[n - 1].sequenceNo.n >= 1
                      && rows[n - 1].eventMac.Blob? && |rows[n - 1].eventMac.b| == 32))
            && (next.Some? ==>
                  && RowHolds(next.value, r)
                  && LinkCells(hmac, key, next.value, if n == 0 then 1 else rows[n - 1].sequenceNo.n + 1,
                               PreviousCell(rows, n)))
  {
    hide CanonicalEventBytes, Linked, LinkCells, StoredRow, RowHolds;
    GenesisIsZeros();
    if NextRow(hmac, key, rows, r).Some? {
      var link := NextChainLink(Head(rows)).value;
      var row := ChainedRow(hmac, key, link, r);
      LinkedIsLinkCells(hmac, key, row, link.0, link.1);
      LinkedIsWellTyped(hmac, key, row, link);
      RecordOfIsHeld(row);
    }
  }

  lemma LinkedIsWellTyped(hmac: MacFunction, key: Key, row: Row, link: (int, Mac))
    requires Linked(hmac, key, row, link.0, link.1)
    ensures WellTyped(row)
  {
  }
}
