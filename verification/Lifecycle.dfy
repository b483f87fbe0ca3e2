/**
  * Many access runs on one audit log. Each run is a writer of the concurrent table; what a run may
  * append is what `AccessService.Handle` guarantees, at any point of its life.
  */
module Lifecycle {
  import opened Basics
  import opened SqlValues
  import opened Integrity
  import opened AuditEvents
  import opened AuditChain
  import opened AuditRepository
  import opened AccessService
  import opened Access
  import Authorization
  import RunFacts
  import Sessions

  /** A run goes on, returned, or raised. */
  datatype Status = InProgress | HasReturned | HasRaised

  /** One run as the log sees it: whose it is, its session if it has one, and the events it committed. */
  datatype RunLog = RunLog(principal: string, sessionId: Option<string>, events: seq<AuditEvent>, status: Status)

  ghost predicate DenialEvent(e: AuditEvent) {
    e.eventType == ACCESS_DENIED && e.sessionId.None?
  }

  ghost predicate WellBehaved(r: RunLog) {
    && (forall e :: e in r.events ==> e.actorUserId == r.principal && e.sessionId == r.sessionId)
    && match r.sessionId
       case None =>
         && (r.events == [] || (|r.events| == 1 && DenialEvent(r.events[0])))
         && (r.status == HasReturned <==> r.events != [] && r.status != InProgress)
       case Some(_) =>
         && (CompleteLife(Kinds(r.events)) || PartialLife(Kinds(r.events)))
         && (r.status == HasReturned ==> CompleteLife(Kinds(r.events)))
         && (r.status == HasRaised ==> PartialLife(Kinds(r.events)))
  }

  function RunStatus(outcome: Outcome): Status {
    match outcome
    case Decided(_) => HasReturned
    case Raised => HasRaised
    case StillRelaying => InProgress
  }

  // ---------------------------------------------------------------- what a run of `handle` appends

  lemma EventsOfPart(events: seq<AuditEvent>, q: AccessRequest, sid: string, reason: string)
    requires PartLogged(events, q, sid, reason)
    ensures PartialLife(Kinds(events))
    ensures forall e :: e in events ==> e.actorUserId == q.userId && e.sessionId == Some(sid)
  {
    if ActiveLogged(events, q, sid, reason) {
      assert events == events[..2] + [events[2]];
    }
  }

  lemma EventsOfLife(events: seq<AuditEvent>, q: AccessRequest, s: Sessions.Snapshot, reason: string)
    requires LifeLogged(events, q, s, reason)
    ensures CompleteLife(Kinds(events))
    ensures forall e :: e in events ==> e.actorUserId == q.userId && e.sessionId == Some(s.id)
  {
    var earlier := events[..|events| - 1];
    EventsOfPart(earlier, q, s.id, reason);
    assert events == earlier + [events[|events| - 1]];
    assert Kinds(events) == Kinds(earlier) + [events[|events| - 1].eventType];
  }

  /** What a run with a session leaves in the log is a life, as far as the run came. */
  lemma LoggedLife(end: RunEnd, events: seq<AuditEvent>, lost: set<AuditEventType>, q: AccessRequest,
                   s: Sessions.Snapshot, reason: string)
    requires LogMatches(end, events, lost, q, s, reason)
    ensures if end.Finished? then CompleteLife(Kinds(events)) else PartialLife(Kinds(events))
    ensures forall e :: e in events ==> e.actorUserId == q.userId && e.sessionId == Some(s.id)
  {
    hide LifeLogged, ActiveLogged, EventIs, CompleteLife, PartialLife, Kinds;
    match end
    case Finished => EventsOfLife(events, q, s, reason);
    case Interrupted => EventsOfPart(events, q, s.id, reason);
    case Running => EventsOfPart(events, q, s.id, reason);
  }

  /** The run as the log sees it in the end. */
  ghost function LogOf(r: Report): RunLog {
    RunLog(r.principal, if r.session.Some? then Some(r.session.value.id) else None,
           RunFacts.CommittedEvents(r.trace), RunStatus(r.outcome))
  }

  /** A run with a session is well behaved. */
  lemma GrantedRunIsWellBehaved(r: Report)
    requires Promised(r) && r.session.Some?
    ensures WellBehaved(LogOf(r))
  {
    hide CallsAuthorized, RelayPromised, RelayMatches, EndExplained, LogMatches, CompleteLife, PartialLife, Kinds;
    hide Authorization.Checks;
    var c := Authorization.Checks(r.tables, r.principal, r.request);
    var facts := RunFacts.OfTrace(r.sha256, r.trace);
    LoggedLife(EndOf(r.outcome), RunFacts.CommittedEvents(r.trace), facts.lost, r.request, r.session.value,
               c.decision.reason);
  }

  /** So is a run without one. */
  lemma RefusedRunIsWellBehaved(r: Report)
    requires Promised(r) && r.session.None?
    ensures WellBehaved(LogOf(r))
  {
    hide CallsAuthorized, RelayPromised, RunFacts.CommittedEvents, RunFacts.OfTrace, Authorization.Checks;
  }

  /** So is the same run seen at any earlier moment. */
  lemma EarlierMomentIsWellBehaved(r: RunLog, k: nat)
    requires WellBehaved(r) && k <= |r.events|
    ensures WellBehaved(r.(events := r.events[..k], status := InProgress))
  {
    var earlier := r.events[..k];
    assert forall e :: e in earlier ==> e in r.events;
    assert Kinds(earlier) == Kinds(r.events)[..k];
    assert k == |r.events| ==> earlier == r.events;
  }

  /** A run of `handle` on some request, tables and world, at its end or at an earlier moment. */
  ghost predicate HandleRun(log: RunLog) {
    exists r: Report ::
      Promised(r) && (log == LogOf(r) || exists k: nat :: IsEarlierMoment(log, LogOf(r), k))
  }

  /** The log has seen `k` events of the run so far. */
  ghost predicate IsEarlierMoment(log: RunLog, whole: RunLog, k: nat) {
    k <= |whole.events| && log == whole.(events := whole.events[..k], status := InProgress)
  }

  /** Every run of `handle` is well behaved at every moment. */
  lemma HandleRunIsWellBehaved(log: RunLog)
    requires HandleRun(log)
    ensures WellBehaved(log)
  {
    hide Promised, LogOf, WellBehaved;
    var r: Report :| Promised(r) && (log == LogOf(r) || exists k: nat :: IsEarlierMoment(log, LogOf(r), k));
    if r.session.Some? {
      GrantedRunIsWellBehaved(r);
    } else {
      RefusedRunIsWellBehaved(r);
    }
    if k: nat :| IsEarlierMoment(log, LogOf(r), k) {
      EarlierMomentIsWellBehaved(LogOf(r), k);
    }
  }

  // ---------------------------------------------------------------- many runs on one table

  function SerializeAll(isoFormat: int -> string, events: seq<AuditEvent>): (rs: seq<Record>)
    ensures |rs| == |events|
    ensures forall i :: 0 <= i < |events| ==> rs[i] == Serialize(isoFormat, events[i])
  {
    seq(|events|, i requires 0 <= i < |events| => Serialize(isoFormat, events[i]))
  }

  /** What each writer appended successfully is what its run committed so far; no two runs share a session id. */
  ghost predicate WritersLog(isoFormat: int -> string, s: System, runs: seq<RunLog>) {
    && |runs| == |s.writers|
    && (forall w :: 0 <= w < |runs| ==>
          Successes(s.writers[w].attempts) == SerializeAll(isoFormat, runs[w].events))
    && (forall v, w :: 0 <= v < w < |runs| && runs[v].sessionId.Some? ==> runs[v].sessionId != runs[w].sessionId)
  }

  ghost predicate AllWellBehaved(runs: seq<RunLog>) {
    forall w :: 0 <= w < |runs| ==> WellBehaved(runs[w])
  }

  /** The writers of the system are these runs of `handle`, each at some moment of its life. */
  ghost predicate RunsAreWriters(isoFormat: int -> string, s: System, runs: seq<RunLog>) {
    WritersLog(isoFormat, s, runs) && forall w :: 0 <= w < |runs| ==> HandleRun(runs[w])
  }

  lemma WritersAreWellBehaved(isoFormat: int -> string, s: System, runs: seq<RunLog>)
    requires RunsAreWriters(isoFormat, s, runs)
    ensures WritersLog(isoFormat, s, runs) && AllWellBehaved(runs)
  {
    hide HandleRun, WellBehaved, WritersLog;
    forall w | 0 <= w < |runs|
      ensures WellBehaved(runs[w])
    {
      HandleRunIsWellBehaved(runs[w]);
    }
  }

  /** The records of one session, in the order of the log. */
  function OfSession(records: seq<Record>, sid: string): seq<Record> {
    if records == [] then []
    else
      var last := records[|records| - 1];
      OfSession(records[..|records| - 1], sid) + (if last.sessionId == Some(sid) then [last] else [])
  }

  /** The rows of one session, as the table lists them. */
  function RowsOf(rows: seq<Row>, sid: string): seq<Row> {
    if rows == [] then []
    else
      var last := rows[|rows| - 1];
      RowsOf(rows[..|rows| - 1], sid) + (if last.sessionId == Text(sid) then [last] else [])
  }

  /** The row shows this event, column by column. */
  ghost predicate RowShows(isoFormat: int -> string, row: Row, e: AuditEvent) {
    && row.id == Text(e.id) && row.timestamp == Text(isoFormat(e.timestamp))
    && row.actorUserId == Text(e.actorUserId) && row.targetId == Text(e.targetId)
    && row.sessionId == (if e.sessionId.None? then Null else Text(e.sessionId.value))
    && row.result == Text(e.result)
    && row.reasonCode == (if e.reasonCode.None? then Null else Text(e.reasonCode.value))
    && row.eventType == Text(match e.eventType
                             case ACCESS_ALLOWED => "access_allowed"
                             case ACCESS_DENIED => "access_denied"
                             case SESSION_OPENING => "session_opening"
                             case SESSION_ACTIVE => "session_active"
                             case SESSION_CLOSED => "session_closed"
                             case SESSION_FAILED => "session_failed")
  }

  ghost predicate TypesAre(rows: seq<Row>, words: seq<string>) {
    |rows| == |words| && forall i :: 0 <= i < |rows| ==> rows[i].eventType == Text(words[i])
  }

  /** A complete life, in the words of the table. */
  ghost predicate CompleteRows(rows: seq<Row>) {
    || TypesAre(rows, ["access_allowed", "session_opening", "session_failed"])
    || TypesAre(rows, ["access_allowed", "session_opening", "session_active", "session_closed"])
    || TypesAre(rows, ["access_allowed", "session_opening", "session_active", "session_failed"])
  }

  /** The beginning of one. */
  ghost predicate PartialRows(rows: seq<Row>) {
    || rows == []
    || TypesAre(rows, ["access_allowed"])
    || TypesAre(rows, ["access_allowed", "session_opening"])
    || TypesAre(rows, ["access_allowed", "session_opening", "session_active"])
  }

  lemma ShownType(isoFormat: int -> string, row: Row, e: AuditEvent)
    requires RowShows(isoFormat, row, e)
    ensures row.eventType == Text(TypeText(e.eventType))
  {
  }

  /** Kinds in words, one by one. */
  ghost predicate Spell(ks: seq<AuditEventType>, words: seq<string>) {
    |ks| == |words| && forall i :: 0 <= i < |ks| ==> words[i] == TypeText(ks[i])
  }

  lemma SpelledRows(isoFormat: int -> string, rows: seq<Row>, events: seq<AuditEvent>, words: seq<string>)
    requires |rows| == |events| && forall i :: 0 <= i < |rows| ==> RowShows(isoFormat, rows[i], events[i])
    requires Spell(Kinds(events), words)
    ensures TypesAre(rows, words)
  {
    hide RowShows, TypeText;
    forall i | 0 <= i < |rows|
      ensures rows[i].eventType == Text(words[i])
    {
      ShownType(isoFormat, rows[i], events[i]);
    }
  }

  lemma CompleteInWords(ks: seq<AuditEventType>)
    requires CompleteLife(ks)
    ensures || Spell(ks, ["access_allowed", "session_opening", "session_failed"])
            || Spell(ks, ["access_allowed", "session_opening", "session_active", "session_closed"])
            || Spell(ks, ["access_allowed", "session_opening", "session_active", "session_failed"])
  {
  }

  lemma PartialInWords(ks: seq<AuditEventType>)
    requires PartialLife(ks)
    ensures || ks == []
            || Spell(ks, ["access_allowed"])
            || Spell(ks, ["access_allowed", "session_opening"])
            || Spell(ks, ["access_allowed", "session_opening", "session_active"])
  {
    assert forall i :: 0 <= i < |ks| ==> ks[i] == [ACCESS_ALLOWED, SESSION_OPENING, SESSION_ACTIVE][i];
  }

  lemma LivesInWords(isoFormat: int -> string, rows: seq<Row>, events: seq<AuditEvent>)
    requires |rows| == |events| && forall i :: 0 <= i < |rows| ==> RowShows(isoFormat, rows[i], events[i])
    ensures CompleteLife(Kinds(events)) ==> CompleteRows(rows)
    ensures PartialLife(Kinds(events)) ==> PartialRows(rows)
  {
    hide RowShows, Kinds, Spell, TypesAre, CompleteLife, PartialLife;
    forall words | Spell(Kinds(events), words)
      ensures TypesAre(rows, words)
    {
      SpelledRows(isoFormat, rows, events, words);
    }
    if CompleteLife(Kinds(events)) {
      CompleteInWords(Kinds(events));
    }
    if PartialLife(Kinds(events)) {
      PartialInWords(Kinds(events));
      assert |Kinds(events)| == |events|;
    }
  }

  lemma HeldRecordShowsEvent(isoFormat: int -> string, row: Row, e: AuditEvent)
    requires RowHolds(row, Serialize(isoFormat, e))
    ensures RowShows(isoFormat, row, e)
  {
  }

  lemma {:induction false} CommitIsInItsWriter(commits: seq<Commit>, k: nat)
    requires k < |commits|
    ensures commits[k].record in CommittedBy(commits, commits[k].writer)
    decreases |commits|
  {
    if k < |commits| - 1 {
      CommitIsInItsWriter(commits[..|commits| - 1], k);
    }
  }

  lemma {:induction false} OtherWritersDropOut(commits: seq<Commit>, w: nat, sid: string)
    requires forall k :: 0 <= k < |commits| && commits[k].record.sessionId == Some(sid) ==> commits[k].writer == w
    ensures OfSession(Records(commits), sid) == OfSession(CommittedBy(commits, w), sid)
    decreases |commits|
  {
    if commits != [] {
      var n := |commits| - 1;
      OtherWritersDropOut(commits[..n], w, sid);
      var rs := Records(commits);
      assert rs[..n] == Records(commits[..n]) && rs[n] == commits[n].record;
      var mine := CommittedBy(commits[..n], w);
      assert (mine + [commits[n].record])[..|mine|] == mine;
      assert mine + [] == mine;
    }
  }

  lemma {:induction false} WholeSession(records: seq<Record>, sid: string)
    requires forall i :: 0 <= i < |records| ==> records[i].sessionId == Some(sid)
    ensures OfSession(records, sid) == records
  {
    if records != [] {
      WholeSession(records[..|records| - 1], sid);
    }
  }

  /** The log's records of a session are exactly its run's events. */
  lemma SessionRecordsAreItsRun(isoFormat: int -> string, s: System, runs: seq<RunLog>, w: nat, sid: string)
    requires HistoriesAgree(s) && WritersLog(isoFormat, s, runs) && AllWellBehaved(runs)
    requires forall k :: 0 <= k < |s.commits| ==> s.commits[k].writer < |s.writers|
    requires w < |runs| && runs[w].sessionId == Some(sid)
    ensures OfSession(Records(s.commits), sid) == SerializeAll(isoFormat, runs[w].events)
  {
    forall k | 0 <= k < |s.commits| && s.commits[k].record.sessionId == Some(sid)
      ensures s.commits[k].writer == w
    {
      var x := s.commits[k].writer;
      CommitIsInItsWriter(s.commits, k);
      var mine := SerializeAll(isoFormat, runs[x].events);
      assert s.commits[k].record in mine;
      var i :| 0 <= i < |mine| && mine[i] == s.commits[k].record;
      assert runs[x].events[i] in runs[x].events;
    }
    OtherWritersDropOut(s.commits, w, sid);
    WholeSession(SerializeAll(isoFormat, runs[w].events), sid);
  }

  lemma StoresWithoutLast(rows: seq<Row>, start: nat, records: seq<Record>)
    requires Stores(rows, start, records) && records != []
    ensures |rows| > start && Stores(rows[..|rows| - 1], start, records[..|records| - 1])
    ensures WellTyped(rows[|rows| - 1]) && RecordOf(rows[|rows| - 1]) == records[|records| - 1]
  {
    hide WellTyped, RecordOf;
  }

  /** The rows hold the records, one by one. */
  ghost predicate RowsHold(rows: seq<Row>, records: seq<Record>) {
    |rows| == |records| && forall i :: 0 <= i < |rows| ==> RowHolds(rows[i], records[i])
  }

  lemma {:induction false} RowsOfStored(rows: seq<Row>, start: nat, records: seq<Record>, sid: string)
    requires start <= |rows| && Stores(rows, start, records)
    requires RowsOf(rows[..start], sid) == []
    ensures RowsHold(RowsOf(rows, sid), OfSession(records, sid))
    decreases |records|
  {
    hide WellTyped, RecordOf, Stores, RowHolds;
    if records == [] {
      assert rows[..start] == rows by {
        StoresNothing(rows, start);
      }
    } else {
      var n, m := |rows| - 1, |records| - 1;
      StoresWithoutLast(rows, start, records);
      assert rows[..n][..start] == rows[..start];
      RowsOfStored(rows[..n], start, records[..m], sid);
      SessionCell(rows[n], sid);
      RecordOfIsHeld(rows[n]);
    }
  }

  lemma StoresNothing(rows: seq<Row>, start: nat)
    requires Stores(rows, start, [])
    ensures |rows| == start
  {
    hide WellTyped, RecordOf;
  }

  lemma SessionCell(row: Row, sid: string)
    requires WellTyped(row)
    ensures RecordOf(row).sessionId == Some(sid) <==> row.sessionId == Text(sid)
  {
  }

  /**
    * The lifecycle language over interleaved runs. Whatever the interleaving of their appends, the
    * rows of each session show its run's events one by one, and their types spell a prefix of
    * access_allowed session_opening (session_failed | session_active (session_closed | session_failed))
    * in table order, which is complete when its run returned and incomplete when its run raised.
    */
  lemma InterleavedLifecycles(
    hmac: MacFunction, key: Key, initial: seq<Row>, writers: nat, actions: seq<AuditRepository.Action>,
    isoFormat: int -> string, runs: seq<RunLog>, w: nat, sid: string)
    requires Verifies(hmac, key, initial) && DistinctIds(initial)
    requires var s := Run(hmac, key, Start(initial, writers), actions);
             RunsAreWriters(isoFormat, s, runs)
    requires w < |runs| && runs[w].sessionId == Some(sid) && RowsOf(initial, sid) == []
    ensures var s := Run(hmac, key, Start(initial, writers), actions);
            && Verifies(hmac, key, s.table)
            && var rows := RowsOf(s.table, sid);
            && |rows| == |runs[w].events|
            && (forall i :: 0 <= i < |rows| ==> RowShows(isoFormat, rows[i], runs[w].events[i]))
            && (CompleteRows(rows) || PartialRows(rows))
            && (runs[w].status == HasReturned ==> CompleteRows(rows))
            && (runs[w].status == HasRaised ==> PartialRows(rows))
  {
    hide Step, CanonicalEventBytes, StoredRow, CompleteLife, PartialLife, RunsAreWriters, RowShows, RowHolds;
    hide CompleteRows, PartialRows, Kinds;
    var s := Run(hmac, key, Start(initial, writers), actions);
    WritersAreWellBehaved(isoFormat, s, runs);
    ConcurrentAppendsLinearise(hmac, key, initial, writers, actions);
    SessionRecordsAreItsRun(isoFormat, s, runs, w, sid);
    assert s.table[..|initial|] == initial;
    RowsOfStored(s.table, |initial|, Records(s.commits), sid);
    var rows := RowsOf(s.table, sid);
    forall i | 0 <= i < |rows|
      ensures RowShows(isoFormat, rows[i], runs[w].events[i])
    {
      HeldRecordShowsEvent(isoFormat, rows[i], runs[w].events[i]);
    }
    LivesInWords(isoFormat, rows, runs[w].events);
  }

  /**
    * Every row that the runs added shows, column by column, an event of its run, and names its run's
    * principal as the actor; and a refused run that returned added exactly one row, an access_denied
    * without a session id.
    */
  lemma ActorsAndDenials(
    hmac: MacFunction, key: Key, initial: seq<Row>, writers: nat, actions: seq<AuditRepository.Action>,
    isoFormat: int -> string, runs: seq<RunLog>)
    requires Verifies(hmac, key, initial) && DistinctIds(initial)
    requires var s := Run(hmac, key, Start(initial, writers), actions);
             RunsAreWriters(isoFormat, s, runs)
    ensures var s := Run(hmac, key, Start(initial, writers), actions);
            && |s.table| == |initial| + |s.commits|
            && (forall k :: 0 <= k < |s.commits| ==>
                  && s.commits[k].writer < |runs|
                  && ShowsEventOf(isoFormat, s.table[|initial| + k], runs[s.commits[k].writer])
                  && s.table[|initial| + k].actorUserId == Text(runs[s.commits[k].writer].principal))
            && (forall w :: 0 <= w < |runs| && runs[w].sessionId.None? && runs[w].status == HasReturned ==>
                  var mine := CommittedBy(s.commits, w);
                  |mine| == 1 && mine[0].sessionId.None? && mine[0].eventType == "access_denied")
  {
    hide Step, CanonicalEventBytes, StoredRow, CompleteLife, PartialLife, RunsAreWriters, RowShows, RowHolds;
    hide ShowsEventOf;
    var s := Run(hmac, key, Start(initial, writers), actions);
    WritersAreWellBehaved(isoFormat, s, runs);
    ConcurrentAppendsLinearise(hmac, key, initial, writers, actions);
    forall k | 0 <= k < |s.commits|
      ensures && s.commits[k].writer < |runs|
              && ShowsEventOf(isoFormat, s.table[|initial| + k], runs[s.commits[k].writer])
              && s.table[|initial| + k].actorUserId == Text(runs[s.commits[k].writer].principal)
    {
      RecordAt(s.commits, k);
      RecordOfIsHeld(s.table[|initial| + k]);
      EventOfCommit(isoFormat, s, runs, k, s.table[|initial| + k]);
    }
  }

  lemma {:induction false} RecordAt(commits: seq<Commit>, k: nat)
    requires k < |commits|
    ensures Records(commits)[k] == commits[k].record
    decreases |commits|
  {
    if k < |commits| - 1 {
      RecordAt(commits[..|commits| - 1], k);
    }
  }

  ghost predicate ShowsEventOf(isoFormat: int -> string, row: Row, r: RunLog) {
    exists e :: e in r.events && RowShows(isoFormat, row, e)
  }

  lemma EventOfCommit(isoFormat: int -> string, s: System, runs: seq<RunLog>, k: nat, row: Row)
    requires HistoriesAgree(s) && WritersLog(isoFormat, s, runs) && AllWellBehaved(runs)
    requires k < |s.commits| && s.commits[k].writer < |s.writers| && RowHolds(row, s.commits[k].record)
    ensures ShowsEventOf(isoFormat, row, runs[s.commits[k].writer])
    ensures row.actorUserId == Text(runs[s.commits[k].writer].principal)
  {
    hide RowShows, RowHolds;
    var x := s.commits[k].writer;
    CommitIsInItsWriter(s.commits, k);
    var mine := SerializeAll(isoFormat, runs[x].events);
    var i :| 0 <= i < |mine| && mine[i] == s.commits[k].record;
    var e := runs[x].events[i];
    HeldRecordShowsEvent(isoFormat, row, e);
    ShownActor(isoFormat, row, e);
  }

  lemma ShownActor(isoFormat: int -> string, row: Row, e: AuditEvent)
    requires RowShows(isoFormat, row, e)
    ensures row.actorUserId == Text(e.actorUserId)
  {
  }
}
