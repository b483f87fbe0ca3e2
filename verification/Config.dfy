/**
  * Targets and privileged accounts: src/domain/target.py, src/domain/privileged_account.py and
  * the two SQLite repositories that read them back from tables with arbitrary contents.
  */
module Config {
  import opened Basics
  import opened SqlValues
  import Sessions

  /** A lookup finds nothing, raises, or finds a value. */
  datatype Lookup<+T> = Absent | Rejected | Found(value: T)

  datatype Target = Target(id: string, name: string, host: string, port: int, expectedHostKey: string, enabled: bool)

  datatype TargetRow = TargetRow(id: Cell, name: Cell, host: Cell, port: Cell, expectedHostKey: Cell, enabled: Cell)

  datatype Account = Account(id: string, targetId: string, username: string, credentialRef: string, enabled: bool)

  datatype AccountRow = AccountRow(id: Cell, targetId: Cell, username: Cell, credentialRef: Cell, enabled: Cell)

  const FINGERPRINT_PREFIX := "SHA256:"

  predicate IsFlag(c: Cell) {
    c == Integer(0) || c == Integer(1)
  }

  function FlagCell(b: bool): Cell {
    Integer(if b then 1 else 0)
  }

  function DeserializeTarget(row: TargetRow): Option<Target> {
    if !(row.id.Text? && row.name.Text? && row.host.Text? && row.port.Integer? && row.expectedHostKey.Text?) then None
    else if !IsFlag(row.enabled) then None
    else if Sessions.IsBlank(row.id.s) || Sessions.IsBlank(row.name.s) || Sessions.IsBlank(row.host.s) then None
    else if !(1 <= row.port.n <= 65535) || !(FINGERPRINT_PREFIX <= row.expectedHostKey.s) then None
    else Some(Target(row.id.s, row.name.s, row.host.s, row.port.n, row.expectedHostKey.s, row.enabled.n == 1))
  }

  ghost predicate NonblankText(c: Cell, s: string) {
    c == Text(s) && !Sessions.IsBlank(s)
  }

  /** 1 for an enabled entry, 0 for a disabled one. */
  ghost predicate EnabledCell(c: Cell, enabled: bool) {
    if enabled then c == Integer(1) else c == Integer(0)
  }

  /** The row spells this target, column by column. */
  ghost predicate RowOfTarget(row: TargetRow, t: Target) {
    && NonblankText(row.id, t.id) && NonblankText(row.name, t.name) && NonblankText(row.host, t.host)
    && row.port == Integer(t.port) && 1 <= t.port <= 65535
    && row.expectedHostKey == Text(t.expectedHostKey) && "SHA256:" <= t.expectedHostKey
    && EnabledCell(row.enabled, t.enabled)
  }

  lemma TargetRowsSpellTargets(row: TargetRow, t: Target)
    ensures DeserializeTarget(row) == Some(t) <==> RowOfTarget(row, t)
  {
    hide Sessions.IsBlank;
  }

  /** `get`: the first row with this id. */
  function GetTarget(rows: seq<TargetRow>, id: string): Lookup<Target> {
    if rows == [] then Absent
    else if rows[0].id == Text(id) then
      match DeserializeTarget(rows[0])
      case None => Rejected
      case Some(t) => Found(t)
    else GetTarget(rows[1..], id)
  }

  lemma {:induction false} FoundTargetIsStored(rows: seq<TargetRow>, id: string)
    requires GetTarget(rows, id).Found?
    ensures var t := GetTarget(rows, id).value;
            t.id == id && exists row :: row in rows && DeserializeTarget(row) == Some(t)
  {
    if rows[0].id == Text(id) {
      assert rows[0] in rows;
    } else {
      FoundTargetIsStored(rows[1..], id);
    }
  }

  /** Row `i` is the first one with this id. */
  ghost predicate FirstRow(rows: seq<TargetRow>, id: string, i: nat) {
    && i < |rows| && rows[i].id == Text(id)
    && forall j :: 0 <= j < i ==> rows[j].id != Text(id)
  }

  /** The lookup answers by the first row with the id: nothing without one, otherwise its decoding or an exception. */
  lemma {:induction false} TargetIsFirstRow(rows: seq<TargetRow>, id: string)
    ensures GetTarget(rows, id).Absent? <==> forall j :: 0 <= j < |rows| ==> rows[j].id != Text(id)
    ensures forall i: nat :: FirstRow(rows, id, i) ==>
              GetTarget(rows, id) == match DeserializeTarget(rows[i]) case None => Rejected case Some(t) => Found(t)
  {
    hide DeserializeTarget;
    if rows != [] && rows[0].id != Text(id) {
      var tail := rows[1..];
      TargetIsFirstRow(tail, id);
      assert forall j :: 0 < j < |rows| ==> rows[j] == tail[j - 1];
      assert forall j :: 0 <= j < |tail| ==> tail[j] == rows[j + 1];
      forall i: nat | FirstRow(rows, id, i)
        ensures i > 0 && FirstRow(tail, id, i - 1) && rows[i] == tail[i - 1]
      {
      }
    }
  }

  lemma {:induction false} FoundIffFirstDecodes(rows: seq<TargetRow>, id: string, t: Target)
    ensures GetTarget(rows, id) == Found(t) <==>
            exists i: nat :: FirstRow(rows, id, i) && DeserializeTarget(rows[i]) == Some(t)
  {
    hide DeserializeTarget;
    TargetIsFirstRow(rows, id);
    if rows != [] {
      if rows[0].id == Text(id) {
        assert FirstRow(rows, id, 0);
      } else {
        FoundIffFirstDecodes(rows[1..], id, t);
        if i: nat :| FirstRow(rows[1..], id, i) && DeserializeTarget(rows[1..][i]) == Some(t) {
          assert forall j :: 0 < j <= i ==> rows[j] == rows[1..][j - 1];
          assert FirstRow(rows, id, i + 1);
        }
      }
    }
  }

  /** A target is found exactly when the first row with its id spells it: each cell, flag and all. */
  lemma FoundIffFirstRow(rows: seq<TargetRow>, id: string, t: Target)
    ensures GetTarget(rows, id) == Found(t) <==>
            exists i: nat :: FirstRow(rows, id, i) && RowOfTarget(rows[i], t)
  {
    hide DeserializeTarget, RowOfTarget;
    FoundIffFirstDecodes(rows, id, t);
    forall row
      ensures DeserializeTarget(row) == Some(t) <==> RowOfTarget(row, t)
    {
      TargetRowsSpellTargets(row, t);
    }
  }

  /** Some target is spelled by the row. */
  ghost predicate ReadableTarget(row: TargetRow) {
    exists t :: RowOfTarget(row, t)
  }

  /** The lookup by cells: nothing without a row, otherwise the first row's target or an exception. */
  lemma LookupByFirstRow(rows: seq<TargetRow>, id: string, i: nat)
    requires FirstRow(rows, id, i)
    ensures var found := GetTarget(rows, id);
            if ReadableTarget(rows[i]) then found.Found? && RowOfTarget(rows[i], found.value) && found.value.id == id
            else found.Rejected?
  {
    hide DeserializeTarget, RowOfTarget;
    TargetIsFirstRow(rows, id);
    if t :| RowOfTarget(rows[i], t) {
      TargetRowsSpellTargets(rows[i], t);
    }
    if DeserializeTarget(rows[i]).Some? {
      TargetRowsSpellTargets(rows[i], DeserializeTarget(rows[i]).value);
      FoundTargetIsStored(rows, id);
    }
  }

  // ---------------------------------------------------------------- privileged accounts

  function SerializeAccount(a: Account): Option<AccountRow> {
    if Sessions.IsBlank(a.id) || Sessions.IsBlank(a.targetId) || Sessions.IsBlank(a.username)
       || Sessions.IsBlank(a.credentialRef)
    then None
    else Some(AccountRow(Text(a.id), Text(a.targetId), Text(a.username), Text(a.credentialRef), FlagCell(a.enabled)))
  }

  function DeserializeAccount(row: AccountRow): Option<Account> {
    if !(row.id.Text? && row.targetId.Text? && row.username.Text? && row.credentialRef.Text?) then None
    else if !IsFlag(row.enabled) then None
    else if Sessions.IsBlank(row.id.s) || Sessions.IsBlank(row.targetId.s) || Sessions.IsBlank(row.username.s)
            || Sessions.IsBlank(row.credentialRef.s)
    then None
    else Some(Account(row.id.s, row.targetId.s, row.username.s, row.credentialRef.s, row.enabled.n == 1))
  }

  /** The row spells this account, column by column. */
  ghost predicate RowOfAccount(row: AccountRow, a: Account) {
    && NonblankText(row.id, a.id) && NonblankText(row.targetId, a.targetId)
    && NonblankText(row.username, a.username) && NonblankText(row.credentialRef, a.credentialRef)
    && EnabledCell(row.enabled, a.enabled)
  }

  /** A row is read as an account exactly when it spells it, and an account is stored as just that row. */
  lemma AccountRowsSpellAccounts(row: AccountRow, a: Account)
    ensures DeserializeAccount(row) == Some(a) <==> RowOfAccount(row, a)
    ensures SerializeAccount(a) == Some(row) <==> RowOfAccount(row, a)
  {
    hide Sessions.IsBlank;
  }

  /** `WHERE target_id = ?`. */
  function AccountsFor(rows: seq<AccountRow>, targetId: string): seq<AccountRow> {
    if rows == [] then []
    else (if rows[0].targetId == Text(targetId) then [rows[0]] else []) + AccountsFor(rows[1..], targetId)
  }

  /** `find_for_target`: no row, several rows, a malformed row, or the account. */
  function FindForTarget(rows: seq<AccountRow>, targetId: string): Lookup<Account> {
    var matching := AccountsFor(rows, targetId);
    if matching == [] then Absent
    else if |matching| != 1 then Rejected
    else
      match DeserializeAccount(matching[0])
      case None => Rejected
      case Some(a) => Found(a)
  }

  /** Row `i` is the one row for the target. */
  ghost predicate SoleRow(rows: seq<AccountRow>, targetId: string, i: nat) {
    && i < |rows| && rows[i].targetId == Text(targetId)
    && forall j :: 0 <= j < |rows| && j != i ==> rows[j].targetId != Text(targetId)
  }

  lemma {:induction false} AccountsForNone(rows: seq<AccountRow>, targetId: string)
    ensures AccountsFor(rows, targetId) == [] <==>
            forall j :: 0 <= j < |rows| ==> rows[j].targetId != Text(targetId)
  {
    if rows != [] {
      AccountsForNone(rows[1..], targetId);
      assert forall j :: 0 < j < |rows| ==> rows[j] == rows[1..][j - 1];
      assert forall j :: 0 <= j < |rows[1..]| ==> rows[1..][j] == rows[j + 1];
    }
  }

  lemma {:induction false} AccountsForOne(rows: seq<AccountRow>, targetId: string)
    ensures |AccountsFor(rows, targetId)| == 1 <==> exists i: nat :: SoleRow(rows, targetId, i)
    ensures forall i: nat :: SoleRow(rows, targetId, i) ==> AccountsFor(rows, targetId) == [rows[i]]
  {
    if rows != [] {
      var tail := rows[1..];
      AccountsForOne(tail, targetId);
      AccountsForNone(tail, targetId);
      assert forall j :: 0 < j < |rows| ==> rows[j] == tail[j - 1];
      if rows[0].targetId == Text(targetId) {
        assert SoleRow(rows, targetId, 0) <==> AccountsFor(tail, targetId) == [];
        assert forall i: nat :: SoleRow(rows, targetId, i) ==> i == 0;
      } else {
        forall i: nat
          ensures SoleRow(rows, targetId, i + 1) <==> SoleRow(tail, targetId, i)
        {
          assert forall j :: 0 <= j < |tail| ==> tail[j] == rows[j + 1];
        }
        forall i: nat | SoleRow(rows, targetId, i)
          ensures i > 0 && SoleRow(tail, targetId, i - 1) && tail[i - 1] == rows[i]
        {
          assert SoleRow(rows, targetId, i - 1 + 1);
        }
      }
    }
  }

  lemma FoundIffSoleDecodes(rows: seq<AccountRow>, targetId: string, a: Account)
    ensures FindForTarget(rows, targetId) == Found(a) <==>
            exists i: nat :: SoleRow(rows, targetId, i) && DeserializeAccount(rows[i]) == Some(a)
    ensures FindForTarget(rows, targetId).Absent? <==>
            forall j :: 0 <= j < |rows| ==> rows[j].targetId != Text(targetId)
  {
    hide DeserializeAccount;
    AccountsForOne(rows, targetId);
    AccountsForNone(rows, targetId);
  }

  /**
    * The exactly-one-row rule, over any table: an account is found if and only if one row, and one
    * only, is for the target and it spells that account.
    */
  lemma FoundIffSoleRow(rows: seq<AccountRow>, targetId: string, a: Account)
    ensures FindForTarget(rows, targetId) == Found(a) <==>
            exists i: nat :: SoleRow(rows, targetId, i) && RowOfAccount(rows[i], a)
    ensures FindForTarget(rows, targetId) == Found(a) ==> a.targetId == targetId
    ensures FindForTarget(rows, targetId).Absent? <==>
            forall j :: 0 <= j < |rows| ==> rows[j].targetId != Text(targetId)
  {
    hide DeserializeAccount, RowOfAccount;
    FoundIffSoleDecodes(rows, targetId, a);
    forall row
      ensures DeserializeAccount(row) == Some(a) <==> RowOfAccount(row, a)
      ensures RowOfAccount(row, a) ==> row.targetId == Text(a.targetId)
    {
      AccountRowsSpellAccounts(row, a);
      if RowOfAccount(row, a) {
        TargetOfRow(row);
      }
    }
  }

  /** Some account is spelled by the row. */
  ghost predicate ReadableAccount(row: AccountRow) {
    exists a :: RowOfAccount(row, a)
  }

  /** The lookup by cells: the sole row's account or an exception; without a sole row, an exception if there is any. */
  lemma LookupBySoleRow(rows: seq<AccountRow>, targetId: string)
    ensures forall i: nat :: SoleRow(rows, targetId, i) ==>
              var found := FindForTarget(rows, targetId);
              if ReadableAccount(rows[i])
              then found.Found? && RowOfAccount(rows[i], found.value) && found.value.targetId == targetId
              else found.Rejected?
    ensures (exists j :: 0 <= j < |rows| && rows[j].targetId == Text(targetId))
            && !(exists i: nat :: SoleRow(rows, targetId, i))
            ==> FindForTarget(rows, targetId).Rejected?
  {
    hide DeserializeAccount, RowOfAccount;
    AccountsForOne(rows, targetId);
    AccountsForNone(rows, targetId);
    forall i: nat | SoleRow(rows, targetId, i)
      ensures var found := FindForTarget(rows, targetId);
              if ReadableAccount(rows[i])
              then found.Found? && RowOfAccount(rows[i], found.value) && found.value.targetId == targetId
              else found.Rejected?
    {
      if a :| RowOfAccount(rows[i], a) {
        AccountRowsSpellAccounts(rows[i], a);
      }
      if DeserializeAccount(rows[i]).Some? {
        AccountRowsSpellAccounts(rows[i], DeserializeAccount(rows[i]).value);
        TargetOfRow(rows[i]);
      }
    }
  }

  lemma TargetOfRow(row: AccountRow)
    requires DeserializeAccount(row).Some?
    ensures row.targetId == Text(DeserializeAccount(row).value.targetId)
  {
  }

  datatype StoreOutcome = Stored | DuplicatePrivilegedAccountError | ConfigStorageError

  predicate AccountIdTaken(rows: seq<AccountRow>, id: string) {
    exists i :: 0 <= i < |rows| && rows[i].id == Text(id)
  }

  class SQLitePrivilegedAccountRepository {
    var rows: seq<AccountRow>

    constructor ()
      ensures rows == []
    {
      rows := [];
    }

    method Store(a: Account, databaseFails: bool) returns (outcome: StoreOutcome)
      modifies this
      ensures outcome == Stored <==>
              !databaseFails && SerializeAccount(a).Some? && !AccountIdTaken(old(rows), a.id)
      ensures outcome == Stored ==>
                rows == old(rows) + [SerializeAccount(a).value] && RowOfAccount(SerializeAccount(a).value, a)
      ensures outcome != Stored ==> rows == old(rows)
    {
      var serialized := SerializeAccount(a);
      if serialized.None? || databaseFails {
        return ConfigStorageError;
      }
      if AccountIdTaken(rows, a.id) {
        return DuplicatePrivilegedAccountError;
      }
      AccountRowsSpellAccounts(serialized.value, a);
      rows := rows + [serialized.value];
      return Stored;
    }
  }

  lemma AccountRoundTrip(a: Account)
    requires SerializeAccount(a).Some?
    ensures DeserializeAccount(SerializeAccount(a).value) == Some(a)
  {
  }

  /** Storing a second account for a target withdraws the first: from then on the lookup raises. */
  lemma SecondAccountIsAmbiguous(rows: seq<AccountRow>, a: Account, targetId: string)
    requires SerializeAccount(a).Some? && a.targetId == targetId
    ensures FindForTarget(rows + [SerializeAccount(a).value], targetId) ==
            if FindForTarget(rows, targetId).Absent? then Found(a) else Rejected
  {
    AccountsForSnoc(rows, SerializeAccount(a).value, targetId);
    AccountRoundTrip(a);
  }

  lemma {:induction false} AccountsForSnoc(rows: seq<AccountRow>, row: AccountRow, targetId: string)
    ensures AccountsFor(rows + [row], targetId) ==
            AccountsFor(rows, targetId) + (if row.targetId == Text(targetId) then [row] else [])
  {
    if rows != [] {
      AccountsForSnoc(rows[1..], row, targetId);
      assert (rows + [row])[1..] == rows[1..] + [row];
    } else {
      assert rows + [row] == [row];
    }
  }
}
