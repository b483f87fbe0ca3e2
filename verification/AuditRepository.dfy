/**
  * Appending to the audit table: the repository object with its transaction, and the same
  * transaction cut into the steps that concurrent writers interleave.
  */
module AuditRepository {
  import opened Basics
  import opened SqlValues
  import opened Integrity
  import opened AuditChain

  /** The statement at which SQLite raises, if it does. */
  datatype Fault = NoFault | AtConnect | AtBegin | AtReadHead | AtInsert | AtCommit

  datatype AppendOutcome = Committed | DuplicateAuditEventError | AuditStorageError

  predicate IdTaken(rows: seq<Row>, id: string) {
    exists i :: 0 <= i < |rows| && rows[i].id == Text(id)
  }

  ghost predicate DistinctIds(rows: seq<Row>) {
    forall i, j :: 0 <= i < j < |rows| ==> rows[i].id != rows[j].id
  }

  class SQLiteAuditRepository {
    var rows: seq<Row>

    constructor ()
      ensures rows == []
    {
      rows := [];
    }

    /** `append`: the table grows by the next chained row, or the transaction leaves no trace. */
    method Append(hmac: MacFunction, key: Option<Key>, r: Record, fault: Fault)
      returns (outcome: AppendOutcome)
      modifies this
      ensures outcome == Committed <==>
              key.Some? && fault == NoFault && NextChainLink(Head(old(rows))).Some? && !IdTaken(old(rows), r.id)
      ensures outcome == DuplicateAuditEventError ==> IdTaken(old(rows), r.id)
      ensures outcome == Committed ==>
                && NextRow(hmac, key.value, old(rows), r).Some?
                && rows == old(rows) + [NextRow(hmac, key.value, old(rows), r).value]
                && (Verifies(hmac, key.value, rows) <==> old(Verifies(hmac, key.value, rows)))
      ensures outcome != Committed ==> rows == old(rows)
      ensures old(DistinctIds(rows)) ==> DistinctIds(rows)
      ensures old(Ordered(rows)) ==> Ordered(rows)
    {
      hide CanonicalEventBytes, StoredRow;
      if key.None? || fault == AtConnect || fault == AtBegin {
        return AuditStorageError;
      }
      var snapshot := rows;
      if fault == AtReadHead {
        return AuditStorageError;
      }
      var link := NextChainLink(Head(rows));
      if link.None? {
        return AuditStorageError;
      }
      var row := ChainedRow(hmac, key.value, link.value, r);
      if IdTaken(rows, r.id) {
        return if fault == AtInsert then AuditStorageError else DuplicateAuditEventError;
      }
      if fault == AtInsert {
        return AuditStorageError;
      }
      rows := rows + [row];
      if fault == AtCommit {
        rows := snapshot;
        return AuditStorageError;
      }
      AppendNeitherBreaksNorLaunders(hmac, key.value, snapshot, r);
      if Ordered(snapshot) {
        AppendKeepsOrder(hmac, key.value, snapshot, r);
      }
      outcome := Committed;
    }
  }

  // ---------------------------------------------------------------- concurrent writers

  /** Where a writer is inside its transaction. */
  datatype Phase =
    | Idle
    | Begun(record: Record)
    | HeadRead(record: Record, link: (int, Mac))
    | Inserted(record: Record, row: Row)

  /** One finished call of `append`: it returned, or it raised. */
  datatype Attempt = Attempt(record: Record, succeeded: bool)

  datatype Writer = Writer(phase: Phase, attempts: seq<Attempt>)

  datatype Commit = Commit(writer: nat, record: Record)

  /** `table` holds committed rows only; an inserted row stays in its writer's transaction. */
  datatype System = System(table: seq<Row>, lock: Option<nat>, writers: seq<Writer>, commits: seq<Commit>)

  datatype Action =
    | BeginImmediate(w: nat, record: Record)
    | ReadHead(w: nat)
    | Insert(w: nat)
    | CommitTransaction(w: nat)
    | Rollback(w: nat)
    | FailToBegin(w: nat, record: Record)

  function Start(table: seq<Row>, writers: nat): System {
    System(table, None, seq(writers, _ => Writer(Idle, [])), [])
  }

  function Fail(s: System, w: nat): System
    requires w < |s.writers| && !s.writers[w].phase.Idle?
  {
    var me := s.writers[w];
    s.(lock := None,
       writers := s.writers[w := Writer(Idle, me.attempts + [Attempt(me.phase.record, false)])])
  }

  function Publish(s: System, w: nat): System
    requires w < |s.writers| && s.writers[w].phase.Inserted?
  {
    var me := s.writers[w];
    System(s.table + [me.phase.row],
           None,
           s.writers[w := Writer(Idle, me.attempts + [Attempt(me.phase.record, true)])],
           s.commits + [Commit(w, me.phase.record)])
  }

  /** One step of one writer; a step that is not enabled leaves the system as it is. */
  function Step(hmac: MacFunction, key: Key, s: System, a: Action): System {
    if a.w >= |s.writers| then s
    else
      var me := s.writers[a.w];
      match a
      case BeginImmediate(w, record) =>
        if me.phase.Idle? && s.lock.None?
        then s.(lock := Some(w), writers := s.writers[w := me.(phase := Begun(record))])
        else s
      case FailToBegin(w, record) =>
        if me.phase.Idle?
        then s.(writers := s.writers[w := me.(attempts := me.attempts + [Attempt(record, false)])])
        else s
      case ReadHead(w) =>
        if me.phase.Begun? then
          match NextChainLink(Head(s.table))
          case None => Fail(s, w)
          case Some(link) => s.(writers := s.writers[w := me.(phase := HeadRead(me.phase.record, link))])
        else s
      case Insert(w) =>
        if me.phase.HeadRead? then
          if IdTaken(s.table, me.phase.record.id) then Fail(s, w)
          else
            var row := ChainedRow(hmac, key, me.phase.link, me.phase.record);
            s.(writers := s.writers[w := me.(phase := Inserted(me.phase.record, row))])
        else s
      case CommitTransaction(w) =>
        if me.phase.Inserted? then Publish(s, w) else s
      case Rollback(w) =>
        if me.phase.Idle? then s else Fail(s, w)
  }

  function Run(hmac: MacFunction, key: Key, s: System, actions: seq<Action>): System
    decreases |actions|
  {
    if actions == [] then s
    else Step(hmac, key, Run(hmac, key, s, actions[..|actions| - 1]), actions[|actions| - 1])
  }

  // What the linearisation is stated with.

  function Records(commits: seq<Commit>): (rs: seq<Record>)
    ensures |rs| == |commits|
  {
    if commits == [] then [] else Records(commits[..|commits| - 1]) + [commits[|commits| - 1].record]
  }

  /** The records committed by one writer, in commit order. */
  function CommittedBy(commits: seq<Commit>, w: nat): seq<Record> {
    if commits == [] then []
    else
      var last := commits[|commits| - 1];
      CommittedBy(commits[..|commits| - 1], w) + (if last.writer == w then [last.record] else [])
  }

  /** The records of a writer's successful attempts, in the writer's own order. */
  function Successes(attempts: seq<Attempt>): seq<Record> {
    if attempts == [] then []
    else
      var last := attempts[|attempts| - 1];
      Successes(attempts[..|attempts| - 1]) + (if last.succeeded then [last.record] else [])
  }

  /** A transaction in progress agrees with the committed table, which cannot move under it. */
  ghost predicate PhaseValid(hmac: MacFunction, key: Key, s: System, w: nat)
    requires w < |s.writers|
  {
    var phase := s.writers[w].phase;
    && (phase.Idle? <==> s.lock != Some(w))
    && (phase.HeadRead? ==> NextChainLink(Head(s.table)) == Some(phase.link))
    && (phase.Inserted? ==>
          NextRow(hmac, key, s.table, phase.record) == Some(phase.row) && !IdTaken(s.table, phase.record.id))
  }

  ghost predicate LocksValid(hmac: MacFunction, key: Key, s: System) {
    forall w :: 0 <= w < |s.writers| ==> PhaseValid(hmac, key, s, w)
  }

  ghost predicate HistoriesAgree(s: System) {
    forall w :: 0 <= w < |s.writers| ==> CommittedBy(s.commits, w) == Successes(s.writers[w].attempts)
  }

  /** What every step keeps. */
  ghost predicate Invariant(hmac: MacFunction, key: Key, initial: seq<Row>, s: System) {
    && LocksValid(hmac, key, s)
    && HistoriesAgree(s)
    && Extend(hmac, key, initial, Records(s.commits)) == Some(s.table)
    && (DistinctIds(initial) ==> DistinctIds(s.table))
    && (forall k :: 0 <= k < |s.commits| ==> s.commits[k].writer < |s.writers|)
  }

  lemma FailKeepsInvariant(hmac: MacFunction, key: Key, initial: seq<Row>, s: System, w: nat)
    requires Invariant(hmac, key, initial, s)
    requires w < |s.writers| && !s.writers[w].phase.Idle?
    ensures Invariant(hmac, key, initial, Fail(s, w))
  {
    hide CanonicalEventBytes, StoredRow;
    var t := Fail(s, w);
    assert PhaseValid(hmac, key, s, w);
    forall x | 0 <= x < |t.writers|
      ensures PhaseValid(hmac, key, t, x)
      ensures CommittedBy(t.commits, x) == Successes(t.writers[x].attempts)
    {
      assert PhaseValid(hmac, key, s, x);
      AttemptAdded(s.writers[x].attempts, Attempt(s.writers[w].phase.record, false));
    }
  }

  lemma AttemptAdded(attempts: seq<Attempt>, a: Attempt)
    ensures Successes(attempts + [a]) == Successes(attempts) + (if a.succeeded then [a.record] else [])
  {
    assert (attempts + [a])[..|attempts|] == attempts;
  }

  lemma CommitAdded(commits: seq<Commit>, c: Commit)
    ensures Records(commits + [c]) == Records(commits) + [c.record]
    ensures forall w: nat :: CommittedBy(commits + [c], w) ==
                        CommittedBy(commits, w) + (if c.writer == w then [c.record] else [])
  {
    assert (commits + [c])[..|commits|] == commits;
  }

  lemma PublishKeepsInvariant(hmac: MacFunction, key: Key, initial: seq<Row>, s: System, w: nat)
    requires Invariant(hmac, key, initial, s)
    requires w < |s.writers| && s.writers[w].phase.Inserted?
    ensures Invariant(hmac, key, initial, Publish(s, w))
  {
    hide CanonicalEventBytes, StoredRow;
    var t := Publish(s, w);
    var record := s.writers[w].phase.record;
    assert PhaseValid(hmac, key, s, w);
    CommitAdded(s.commits, Commit(w, record));
    var rs := Records(t.commits);
    assert rs[..|rs| - 1] == Records(s.commits);
    forall x | 0 <= x < |t.writers|
      ensures PhaseValid(hmac, key, t, x)
      ensures CommittedBy(t.commits, x) == Successes(t.writers[x].attempts)
    {
      assert PhaseValid(hmac, key, s, x);
      AttemptAdded(s.writers[x].attempts, Attempt(record, true));
    }
  }

  /** A step inside one transaction touches neither the committed table nor another writer. */
  lemma PrivateStepKeepsInvariant(hmac: MacFunction, key: Key, initial: seq<Row>, s: System, t: System, w: nat)
    requires Invariant(hmac, key, initial, s)
    requires w < |s.writers| && |t.writers| == |s.writers|
    requires t == System(s.table, t.lock, s.writers[w := t.writers[w]], s.commits)
    requires t.lock == s.lock || (s.lock.None? && t.lock == Some(w))
    requires Successes(t.writers[w].attempts) == Successes(s.writers[w].attempts)
    requires PhaseValid(hmac, key, t, w)
    ensures Invariant(hmac, key, initial, t)
  {
    hide CanonicalEventBytes, StoredRow;
    forall x | 0 <= x < |t.writers|
      ensures PhaseValid(hmac, key, t, x)
      ensures CommittedBy(t.commits, x) == Successes(t.writers[x].attempts)
    {
      assert PhaseValid(hmac, key, s, x);
    }
  }

  lemma StepKeepsInvariant(hmac: MacFunction, key: Key, initial: seq<Row>, s: System, a: Action)
    requires Invariant(hmac, key, initial, s)
    ensures Invariant(hmac, key, initial, Step(hmac, key, s, a))
  {
    hide CanonicalEventBytes, StoredRow;
    if a.w < |s.writers| {
      var w, me, t := a.w, s.writers[a.w], Step(hmac, key, s, a);
      assert PhaseValid(hmac, key, s, w);
      if t == s {
      } else if a.CommitTransaction? {
        PublishKeepsInvariant(hmac, key, initial, s, w);
      } else if !me.phase.Idle? && t == Fail(s, w) {
        FailKeepsInvariant(hmac, key, initial, s, w);
      } else {
        if a.FailToBegin? {
          AttemptAdded(me.attempts, Attempt(a.record, false));
        }
        PrivateStepKeepsInvariant(hmac, key, initial, s, t, w);
      }
    }
  }

  lemma {:induction false} RunKeepsInvariant(
    hmac: MacFunction, key: Key, initial: seq<Row>, writers: nat, actions: seq<Action>)
    ensures Invariant(hmac, key, initial, Run(hmac, key, Start(initial, writers), actions))
    ensures |Run(hmac, key, Start(initial, writers), actions).writers| == writers
    decreases |actions|
  {
    hide CanonicalEventBytes, StoredRow;
    var s := Start(initial, writers);
    if actions != [] {
      var earlier := actions[..|actions| - 1];
      RunKeepsInvariant(hmac, key, initial, writers, earlier);
      StepKeepsInvariant(hmac, key, initial, Run(hmac, key, s, earlier), actions[|actions| - 1]);
    }
  }

  /**
    * Concurrent appends linearise. For any number of writers and any interleaving of their steps,
    * starting from any table that verifies: the table always verifies, its rows are numbered
    * 1..n, ids stay distinct, it is the initial table followed by the committed records in commit
    * order, and what each writer committed is exactly its successful attempts in its own order.
    */
  lemma ConcurrentAppendsLinearise(
    hmac: MacFunction, key: Key, initial: seq<Row>, writers: nat, actions: seq<Action>)
    requires Verifies(hmac, key, initial) && DistinctIds(initial)
    ensures var s := Run(hmac, key, Start(initial, writers), actions);
            && Verifies(hmac, key, s.table)
            && (forall i :: 0 <= i < |s.table| ==> s.table[i].sequenceNo == Integer(i + 1))
            && DistinctIds(s.table)
            && initial <= s.table
            && Stores(s.table, |initial|, Records(s.commits))
            && HistoriesAgree(s)
            && (forall k :: 0 <= k < |s.commits| ==> s.commits[k].writer < writers)
            && |s.writers| == writers
  {
    hide CanonicalEventBytes, StoredRow;
    RunKeepsInvariant(hmac, key, initial, writers, actions);
    var s := Run(hmac, key, Start(initial, writers), actions);
    ExtendVerifies(hmac, key, initial, Records(s.commits));
    forall i | 0 <= i < |s.table|
      ensures s.table[i].sequenceNo == Integer(i + 1)
    {
      assert LinkedAt(hmac, key, s.table, i);
    }
  }

  /**
    * From any table at all, malformed rows included: no interleaving turns a table that fails
    * verification into one that passes, or the reverse.
    */
  lemma ConcurrentAppendsNeverLaunder(
    hmac: MacFunction, key: Key, initial: seq<Row>, writers: nat, actions: seq<Action>)
    ensures Verifies(hmac, key, Run(hmac, key, Start(initial, writers), actions).table) <==>
            Verifies(hmac, key, initial)
  {
    RunKeepsInvariant(hmac, key, initial, writers, actions);
    ExtendNeverLaunders(hmac, key, initial, Records(Run(hmac, key, Start(initial, writers), actions).commits));
  }

  lemma {:induction false} ExtendNeverLaunders(hmac: MacFunction, key: Key, rows: seq<Row>, records: seq<Record>)
    requires Extend(hmac, key, rows, records).Some?
    ensures Verifies(hmac, key, Extend(hmac, key, rows, records).value) <==> Verifies(hmac, key, rows)
    decreases |records|
  {
    hide CanonicalEventBytes, StoredRow;
    if records != [] {
      var last := |records| - 1;
      ExtendNeverLaunders(hmac, key, rows, records[..last]);
      AppendNeitherBreaksNorLaunders(
        hmac, key, Extend(hmac, key, rows, records[..last]).value, records[last]);
    }
  }

  // ---------------------------------------------------------------- the steps refine the call

  /** The four steps of one writer, with nobody in between. */
  function Uninterrupted(hmac: MacFunction, key: Key, s: System, w: nat, r: Record): System {
    Step(hmac, key,
         Step(hmac, key,
              Step(hmac, key,
                   Step(hmac, key, s, BeginImmediate(w, r)), ReadHead(w)), Insert(w)), CommitTransaction(w))
  }

  /**
    * Run without interruption, the steps do what a call of `Append` does when SQLite raises
    * nothing: the same table, one more attempt, and the lock given back.
    */
  lemma UninterruptedStepsAreAppend(hmac: MacFunction, key: Key, s: System, w: nat, r: Record)
    requires w < |s.writers| && s.writers[w].phase.Idle? && s.lock.None?
    ensures var t := Uninterrupted(hmac, key, s, w, r);
            var ok := NextChainLink(Head(s.table)).Some? && !IdTaken(s.table, r.id);
            && t.table == (if ok then s.table + [NextRow(hmac, key, s.table, r).value] else s.table)
            && t.lock.None?
            && t.writers == s.writers[w := Writer(Idle, s.writers[w].attempts + [Attempt(r, ok)])]
            && t.commits == (if ok then s.commits + [Commit(w, r)] else s.commits)
  {
    hide CanonicalEventBytes, StoredRow, IdTaken, Head, NextChainLink, Linked;
    var s1 := Step(hmac, key, s, BeginImmediate(w, r));
    var s2 := Step(hmac, key, s1, ReadHead(w));
    var s3 := Step(hmac, key, s2, Insert(w));
    assert s1.writers[w].phase == Begun(r);
    if NextChainLink(Head(s.table)).Some? {
      assert s2.writers[w].phase == HeadRead(r, NextChainLink(Head(s.table)).value);
      if !IdTaken(s.table, r.id) {
        assert s3.writers[w].phase.Inserted?;
      }
    }
  }
}
