/**
  * src/application/access_service.py over the Paramiko broker: one access run, from the request
  * to the closed session. A run is observed for `horizon` turns of its relay.
  */
module AccessService {
  import opened Basics
  import opened AuditEvents
  import opened Access
  import opened Effects
  import opened SshStack
  import opened TerminalRelay
  import opened Broker
  import opened Sessions
  import opened Authorization
  import opened RunFacts
  import Config
  import Fingerprint
  import TraceSafety
  import Utf8

  /** `handle` returns a decision, raises, or is still relaying when the observation ends. */
  datatype Outcome = Decided(decision: AccessDecision) | Raised | StillRelaying

  // ---------------------------------------------------------------- what a run appends

  /** Everything about an event but its id and timestamp. */
  ghost predicate EventIs(e: AuditEvent, q: AccessRequest, kind: AuditEventType, sessionId: Option<string>,
                          result: string, reason: Option<string>, actor: string)
  {
    && e.eventType == kind && e.actorUserId == actor && e.targetId == q.targetId
    && e.sessionId == sessionId && e.result == result && e.reasonCode == reason
  }

  function Kinds(events: seq<AuditEvent>): (ks: seq<AuditEventType>)
    ensures |ks| == |events|
    ensures forall i :: 0 <= i < |events| ==> ks[i] == events[i].eventType
  {
    seq(|events|, i requires 0 <= i < |events| => events[i].eventType)
  }

  /** The complete lives of a session in the log: ALLOWED OPENING (FAILED | ACTIVE (CLOSED | FAILED)). */
  predicate CompleteLife(ks: seq<AuditEventType>) {
    || ks == [ACCESS_ALLOWED, SESSION_OPENING, SESSION_FAILED]
    || ks == [ACCESS_ALLOWED, SESSION_OPENING, SESSION_ACTIVE, SESSION_CLOSED]
    || ks == [ACCESS_ALLOWED, SESSION_OPENING, SESSION_ACTIVE, SESSION_FAILED]
  }

  /** The proper prefixes of those lives. */
  predicate PartialLife(ks: seq<AuditEventType>) {
    ks <= [ACCESS_ALLOWED, SESSION_OPENING, SESSION_ACTIVE]
  }

  /** What the terminal event of a complete life repeats of the session. */
  ghost predicate TerminalEventAgrees(e: AuditEvent, s: Snapshot) {
    && e.sessionId == Some(s.id)
    && (e.eventType == SESSION_CLOSED <==> s.status == CLOSED)
    && (e.eventType == SESSION_FAILED <==> s.status == FAILED)
    && e.result == (if s.status == CLOSED then "closed" else "failed")
    && s.endedAt == Some(Aware(e.timestamp)) && e.reasonCode == s.closeReason
  }

  // ---------------------------------------------------------------- events and timestamps

  /** What was first taken stays first. */
  ghost predicate KeepsFirst(p: StampLedger, after: StampLedger) {
    && (p.firstId.Some? ==> after.firstId == p.firstId)
    && (p.firstReading.Some? ==> after.firstReading == p.firstReading)
  }

  /** The ledger after one attempt to append this event. */
  ghost predicate Appended(before: Ledger, after: Ledger, e: AuditEvent, ok: bool) {
    && after == before.(events := before.events + (if ok then [e] else []),
                        lost := before.lost + (if ok then {} else {e.eventType}),
                        stamps := after.stamps)
    && KeepsFirst(before.stamps, after.stamps) && after.stamps.newestId.None?
  }

  /** Logging, and nothing else, happened. */
  ghost predicate OnlyLogged(before: Ledger, after: Ledger) {
    && after == before.(events := after.events, lost := after.lost, stamps := after.stamps)
    && KeepsFirst(before.stamps, after.stamps) && after.stamps.newestId.None?
  }

  method NewId(env: Environment) returns (id: string)
    requires env.L().safe
    modifies env
    ensures env.L() == old(env.L()).(stamps := env.L().stamps)
    ensures var p := old(env.L().stamps);
            env.L().stamps == p.(firstId := FirstOf(p.firstId, id), newestId := Some(id), afterId := false)
  {
    hide Advance, Fold;
    var reply := env.PerformOther(Operation.NewId);
    return reply.text;
  }

  /** The wall clock: timezone-aware, and free to run backwards. */
  method Now(env: Environment) returns (at: int)
    requires env.L().safe && env.L().stamps.firstId.Some?
    modifies env
    ensures env.L() == old(env.L()).(stamps := env.L().stamps)
    ensures var p := old(env.L().stamps);
            env.L().stamps == p.(firstReading := FirstOf(p.firstReading, at), reading := Some(at), unspent := true,
                                 afterId := p.newestId.Some?)
  {
    hide Advance, Fold;
    var reply := env.PerformOther(Operation.WallClock);
    return reply.number;
  }

  method Append(env: Environment, e: AuditEvent) returns (ok: bool)
    requires env.L().safe && Stamped(env.L().stamps, e)
    modifies env
    ensures Appended(old(env.L()), env.L(), e, ok) && env.L().stamps.reading == old(env.L().stamps.reading)
  {
    hide Advance, Fold;
    var reply := env.PerformOther(Operation.AppendEvent(e));
    return !reply.raised;
  }

  /** The last reading, but not before the first: when a session ends. */
  ghost predicate EndsAt(p: StampLedger, at: int) {
    p.reading.Some? && p.firstReading.Some? && at == Max(p.reading.value, p.firstReading.value)
  }

  /** `_append_event`: a new id, the given time or the current one, and one attempt to append. */
  method AppendEvent(env: Environment, q: AccessRequest, kind: AuditEventType, sessionId: Option<string>,
                     result: string, reason: Option<string>, actor: string, timestamp: Option<int>)
    returns (ok: bool, ghost e: AuditEvent)
    requires env.L().safe
    requires timestamp.Some? <==> EndsSession(kind)
    requires timestamp.Some? ==> env.L().stamps.unspent && EndsAt(env.L().stamps, timestamp.value)
    modifies env
    ensures EventIs(e, q, kind, sessionId, result, reason, actor)
    ensures timestamp.Some? ==> e.timestamp == timestamp.value && env.L().stamps.reading == old(env.L().stamps.reading)
    ensures Appended(old(env.L()), env.L(), e, ok)
  {
    hide Advance, Permitted, Fold;
    var id := NewId(env);
    var at;
    if timestamp.Some? {
      at := timestamp.value;
    } else {
      at := Now(env);
    }
    var event := AuditEvent(id, at, kind, actor, q.targetId, sessionId, result, reason);
    ok := Append(env, event);
    e := event;
  }

  /** The session has the first id that the run took, and starts at its first reading of the clock. */
  ghost predicate Belongs(p: StampLedger, s: Snapshot) {
    p.firstId == Some(s.id) && p.firstReading.Some? && s.startedAt == Aware(p.firstReading.value)
  }

  /** If the session has ended, it ended at the last reading of the clock, but not before its start. */
  ghost predicate EndIsRead(p: StampLedger, s: Snapshot) {
    s.endedAt.Some? ==> s.endedAt.value.Aware? && EndsAt(p, s.endedAt.value.at)
  }

  /** The same session, possibly further on in its life. */
  ghost predicate SameSession(before: Snapshot, after: Snapshot) {
    after == before.(status := after.status, endedAt := after.endedAt, closeReason := after.closeReason)
  }

  /** `_terminal_timestamp`: the current time, but never before the session's start. */
  method TerminalTimestamp(env: Environment, session: Session) returns (at: int)
    requires env.L().safe && Belongs(env.L().stamps, session.View())
    modifies env
    ensures OnlyReadClock(old(env.L()), env.L()) && EndsAt(env.L().stamps, at) && session.startedAt.at <= at
  {
    hide Advance, Permitted, Fold;
    var observed := Now(env);
    return Max(observed, session.startedAt.at);
  }

  /** The clock was read, after which the reading is there to be used. */
  ghost predicate OnlyReadClock(before: Ledger, after: Ledger) {
    && after == before.(stamps := after.stamps) && KeepsFirst(before.stamps, after.stamps)
    && after.stamps.unspent && after.stamps.newestId == before.stamps.newestId
  }

  const AUDIT_PERSISTENCE_FAILED := "audit_persistence_failed"
  const BROKER_OPEN_FAILED := "broker_open_failed"
  const RELAY_FAILED := "relay_failed"
  const BROKER_CLOSE_FAILED := "broker_close_failed"
  const RELAY_COMPLETED := "relay_completed"
  const RELAY_MAX_DURATION := "max_duration_exceeded"

  /** A live session: not terminal, and its fields pass the constructor's checks. */
  ghost predicate Live(s: Snapshot) {
    Admissible(s) && !Terminal(s.status)
  }

  /** The session ended now, for this reason. */
  ghost predicate EndedBecause(before: Snapshot, after: Snapshot, status: Status, reason: string) {
    && SameSession(before, after) && Admissible(after)
    && after.status == status && after.closeReason == Some(reason)
  }

  /** `mark_failed` with the terminal timestamp; it is never refused, whatever the clock says. */
  method MarkFailed(env: Environment, session: Session, reason: string) returns (at: int)
    requires env.L().safe && Live(session.View()) && !IsBlank(reason) && Belongs(env.L().stamps, session.View())
    modifies env, session
    ensures OnlyReadClock(old(env.L()), env.L())
    ensures EndedBecause(old(session.View()), session.View(), FAILED, reason)
    ensures session.View().endedAt == Some(Aware(at)) && EndsAt(env.L().stamps, at)
  {
    hide Advance, Permitted, Fold, IsBlank;
    at := TerminalTimestamp(env, session);
    var ok := session.MarkFailed(Aware(at), Some(reason));
  }

  /** `_fail_session`. */
  method FailSession(env: Environment, q: AccessRequest, session: Session, reason: string)
    returns (ok: bool, ghost e: AuditEvent)
    requires env.L().safe && Live(session.View()) && !IsBlank(reason) && Belongs(env.L().stamps, session.View())
    modifies env, session
    ensures EndedBecause(old(session.View()), session.View(), FAILED, reason)
    ensures Appended(old(env.L()), env.L(), e, ok) && EndIsRead(env.L().stamps, session.View())
    ensures EventIs(e, q, SESSION_FAILED, Some(session.id), "failed", Some(reason), q.userId)
    ensures TerminalEventAgrees(e, session.View())
  {
    hide Advance, Permitted, Fold, IsBlank;
    var at := MarkFailed(env, session, reason);
    ok, e := AppendEvent(env, q, SESSION_FAILED, Some(session.id), "failed", Some(reason), q.userId, Some(at));
  }

  /** `mark_closed` and its event. */
  method CloseSession(env: Environment, q: AccessRequest, session: Session, reason: string)
    returns (ok: bool, ghost e: AuditEvent)
    requires env.L().safe && Live(session.View()) && session.status == ACTIVE && !IsBlank(reason)
    requires Belongs(env.L().stamps, session.View())
    modifies env, session
    ensures EndedBecause(old(session.View()), session.View(), CLOSED, reason)
    ensures Appended(old(env.L()), env.L(), e, ok) && EndIsRead(env.L().stamps, session.View())
    ensures EventIs(e, q, SESSION_CLOSED, Some(session.id), "closed", Some(reason), q.userId)
    ensures TerminalEventAgrees(e, session.View())
  {
    hide Advance, Permitted, Fold, IsBlank;
    var at := TerminalTimestamp(env, session);
    var _ := session.MarkClosed(Aware(at), Some(reason));
    ok, e := AppendEvent(env, q, SESSION_CLOSED, Some(session.id), "closed", Some(reason), q.userId, Some(at));
  }

  // ---------------------------------------------------------------- the stages of a run with a session

  lemma WordIsNotBlank(s: string)
    requires s != [] && 'a' <= s[0] <= 'z'
    ensures !IsBlank(s)
  {
    assert !IsSpace(s[0]);
  }

  ghost predicate OpeningLogged(events: seq<AuditEvent>, q: AccessRequest, sid: string, reason: string) {
    && |events| == 2
    && EventIs(events[0], q, ACCESS_ALLOWED, Some(sid), "allowed", Some(reason), q.userId)
    && EventIs(events[1], q, SESSION_OPENING, Some(sid), "opening", None, q.userId)
  }

  ghost predicate ActiveLogged(events: seq<AuditEvent>, q: AccessRequest, sid: string, reason: string) {
    && |events| == 3 && OpeningLogged(events[..2], q, sid, reason)
    && EventIs(events[2], q, SESSION_ACTIVE, Some(sid), "active", None, q.userId)
  }

  /** A started life in the log: at most the first three events, in order. */
  ghost predicate PartLogged(events: seq<AuditEvent>, q: AccessRequest, sid: string, reason: string) {
    || events == []
    || (|events| == 1 && EventIs(events[0], q, ACCESS_ALLOWED, Some(sid), "allowed", Some(reason), q.userId))
    || OpeningLogged(events, q, sid, reason)
    || ActiveLogged(events, q, sid, reason)
  }

  /** A finished life: opening or active, then the terminal event that agrees with the session. */
  ghost predicate LifeLogged(events: seq<AuditEvent>, q: AccessRequest, s: Snapshot, reason: string) {
    && |events| > 0
    && var last := events[|events| - 1];
    && var earlier := events[..|events| - 1];
    && TerminalEventAgrees(last, s) && last.actorUserId == q.userId && last.targetId == q.targetId
    && (ActiveLogged(earlier, q, s.id, reason)
        || (OpeningLogged(earlier, q, s.id, reason) && last.eventType == SESSION_FAILED))
    && (last.eventType == SESSION_CLOSED || last.eventType == SESSION_FAILED)
  }

  /** ACCESS_ALLOWED and SESSION_OPENING; when one is lost the session fails and the exception goes on. */
  method LogOpening(env: Environment, q: AccessRequest, session: Session, reason: string) returns (ok: bool)
    requires env.L().safe && env.L().events == [] && env.L().lost == {}
    requires Live(session.View()) && session.status == OPENING && Belongs(env.L().stamps, session.View())
    modifies env, session
    ensures OnlyLogged(old(env.L()), env.L()) && EndIsRead(env.L().stamps, session.View())
    ensures ok <==> env.L().lost == {}
    ensures !ok ==> env.L().lost <= {ACCESS_ALLOWED, SESSION_OPENING}
    ensures ok ==> OpeningLogged(env.L().events, q, session.id, reason) && session.View() == old(session.View())
    ensures !ok ==> |env.L().events| < 2 && PartLogged(env.L().events, q, session.id, reason)
    ensures !ok ==> EndedBecause(old(session.View()), session.View(), FAILED, AUDIT_PERSISTENCE_FAILED)
  {
    hide Advance, Permitted, Fold, IsBlank;
    WordIsNotBlank(AUDIT_PERSISTENCE_FAILED);
    ghost var e;
    ok, e := AppendEvent(env, q, ACCESS_ALLOWED, Some(session.id), "allowed", Some(reason), q.userId, None);
    if ok {
      ok, e := AppendEvent(env, q, SESSION_OPENING, Some(session.id), "opening", None, q.userId, None);
    }
    if !ok {
      var _ := MarkFailed(env, session, AUDIT_PERSISTENCE_FAILED);
    }
  }

  /** `mark_active` and SESSION_ACTIVE. */
  method Activate(env: Environment, q: AccessRequest, session: Session, ghost reason: string) returns (ok: bool)
    requires env.L().safe && env.L().lost == {} && OpeningLogged(env.L().events, q, session.id, reason)
    requires Live(session.View()) && session.status == OPENING && Belongs(env.L().stamps, session.View())
    modifies env, session
    ensures OnlyLogged(old(env.L()), env.L()) && EndIsRead(env.L().stamps, session.View())
    ensures env.L().lost == if ok then {} else {SESSION_ACTIVE}
    ensures ok ==> ActiveLogged(env.L().events, q, session.id, reason)
    ensures ok ==> session.View() == old(session.View()).(status := ACTIVE) && Live(session.View())
    ensures !ok ==> env.L().events == old(env.L().events)
    ensures !ok ==> EndedBecause(old(session.View()), session.View(), FAILED, AUDIT_PERSISTENCE_FAILED)
  {
    hide Advance, Permitted, Fold, IsBlank;
    WordIsNotBlank(AUDIT_PERSISTENCE_FAILED);
    ghost var before := env.L().events;
    var _ := session.MarkActive();
    ghost var e;
    ok, e := AppendEvent(env, q, SESSION_ACTIVE, Some(session.id), "active", None, q.userId, None);
    if !ok {
      var _ := MarkFailed(env, session, AUDIT_PERSISTENCE_FAILED);
    }
    assert (before + [e])[..2] == before;
  }

  /** The reason that a relayed session ends with. */
  function RelayedReason(relay: RelayResult, closeRaised: bool): string {
    if !relay.Returned? then RELAY_FAILED
    else if closeRaised then BROKER_CLOSE_FAILED
    else if relay.outcome == MAX_DURATION_EXCEEDED then RELAY_MAX_DURATION
    else RELAY_COMPLETED
  }

  /** After relay and close: the terminal transition, and its event. */
  method EndRelayed(env: Environment, q: AccessRequest, session: Session, relay: RelayResult, closeRaised: bool,
                    ghost reason: string)
    returns (ok: bool)
    requires env.L().safe && env.L().lost == {} && ActiveLogged(env.L().events, q, session.id, reason)
    requires Live(session.View()) && session.status == ACTIVE && Belongs(env.L().stamps, session.View())
    modifies env, session
    ensures OnlyLogged(old(env.L()), env.L()) && EndIsRead(env.L().stamps, session.View())
    ensures ok <==> env.L().lost == {}
    ensures env.L().lost <= {SESSION_CLOSED, SESSION_FAILED}
    ensures ok ==> LifeLogged(env.L().events, q, session.View(), reason)
    ensures !ok ==> env.L().events == old(env.L().events)
    ensures EndedBecause(old(session.View()), session.View(),
                         if relay.Returned? && !closeRaised then CLOSED else FAILED,
                         RelayedReason(relay, closeRaised))
  {
    hide Advance, Permitted, Fold, IsBlank, Admissible, ActiveLogged, TerminalEventAgrees;
    ghost var before := env.L().events;
    var why := RelayedReason(relay, closeRaised);
    WordIsNotBlank(why);
    ghost var e;
    if relay.Returned? && !closeRaised {
      ok, e := CloseSession(env, q, session, why);
    } else {
      ok, e := FailSession(env, q, session, why);
    }
    assert (before + [e])[..|before|] == before;
  }

  // ---------------------------------------------------------------- relaying, and the whole run

  /** How far a run with a session came. */
  datatype RunEnd = Finished | Interrupted | Running

  /** An event that comes before the relay was lost. */
  predicate LostEarly(lost: set<AuditEventType>) {
    ACCESS_ALLOWED in lost || SESSION_OPENING in lost || SESSION_ACTIVE in lost
  }

  /** Why the session ends, told by what happened; nothing while the relay runs. */
  ghost function ExpectedReason(f: Facts): Option<string> {
    if LostEarly(f.lost) then Some(AUDIT_PERSISTENCE_FAILED)
    else if f.refused then Some(BROKER_OPEN_FAILED)
    else if RelayVerdict(f) == RelayResult.StillRunning then None
    else Some(RelayedReason(RelayVerdict(f), f.connectionCloseFailed))
  }

  ghost function ExpectedStatus(f: Facts): Status {
    if LostEarly(f.lost) || f.refused then FAILED
    else
      match RelayVerdict(f)
      case StillRunning => ACTIVE
      case Raised => FAILED
      case Returned(_) => if f.connectionCloseFailed then FAILED else CLOSED
  }

  /** The session says what happened to the log, the connection, the relay and the closing. */
  ghost predicate EndExplained(f: Facts, s: Snapshot) {
    Admissible(s) && s.status == ExpectedStatus(f) && s.closeReason == ExpectedReason(f)
  }

  /** The log holds what the run came to append, and its end says whether an append was lost. */
  ghost predicate LogMatches(end: RunEnd, events: seq<AuditEvent>, lost: set<AuditEventType>, q: AccessRequest,
                             s: Snapshot, reason: string)
  {
    && (end.Interrupted? <==> lost != {})
    && match end
       case Finished => LifeLogged(events, q, s, reason)
       case Interrupted => PartLogged(events, q, s.id, reason)
       case Running => ActiveLogged(events, q, s.id, reason)
  }

  /** The relay began unless something failed before it, and the run is still going exactly while the relay is. */
  ghost predicate RelayMatches(end: RunEnd, f: Facts) {
    && (f.relayed <==> !LostEarly(f.lost) && !f.refused)
    && (end.Running? <==> f.relayed && RelayVerdict(f) == RelayResult.StillRunning)
  }

  /** What a relay of this duration, observed for so many turns, leaves in its part of the ledger. */
  ghost predicate RelayKept(r: RelayLedger, running: bool, duration: int, horizon: nat) {
    && (r.deadline.Some? ==> r.deadline == Some(r.start + duration))
    && (!r.faulted ==> Balanced(r)) && r.asked <= {32768}
    && (running ==> r.waits == horizon)
    && (r.steady && horizon >= duration ==> !running)
  }

  /** What one run with a session leaves behind. */
  ghost predicate RunLeaves(end: RunEnd, l: Ledger, q: AccessRequest, s: Snapshot, reason: string,
                            duration: int, horizon: nat)
  {
    && l.safe && (!end.Running? ==> l.open == {})
    && LogMatches(end, l.events, l.lost, q, s, reason)
    && RelayMatches(end, OfLedger(l))
    && EndExplained(OfLedger(l), s)
    && Belongs(l.stamps, s) && EndIsRead(l.stamps, s)
    && RelayKept(l.relay, end.Running?, duration, horizon)
  }

  /** Relay, then close in `finally` unless the relay is still running. */
  method RelayThenClose(env: Environment, brokered: ParamikoBrokeredSession, duration: int, horizon: nat)
    returns (result: RelayResult, closeRaised: bool)
    requires brokered.Holds(env.L()) && !brokered.channel.closed && duration > 0
    requires brokered.channel.channel in env.L().link.shells && Committed(env.L().events, SESSION_ACTIVE)
    requires env.L().closeFailures == {} && env.L().relay == NO_RELAY
    modifies env, brokered, brokered.connection, brokered.channel
    ensures result == RelayVerdict(OfLedger(env.L())) && env.L().relay.deadline.Some?
    ensures closeRaised <==> ConnectionCloseFailed(env.L())
    ensures result != RelayResult.StillRunning ==> env.L().open == {}
    ensures RelayKept(env.L().relay, result == RelayResult.StillRunning, duration, horizon)
    ensures var before, after := old(env.L()), env.L();
            after == before.(relay := after.relay, open := after.open, closeFailures := after.closeFailures)
  {
    hide Advance, Permitted, Fold, NearlyBalanced, Balanced, Committed, ConnectionRefused, ChannelCloseFailed;
    closeRaised := false;
    result := brokered.Relay(env, duration, horizon);
    if result != RelayResult.StillRunning {
      closeRaised := brokered.Close(env);
    }
  }

  /** The brokered part of `handle`: activate, relay, close in `finally`, and the terminal event. */
  method RunBrokered(env: Environment, q: AccessRequest, session: Session, brokered: ParamikoBrokeredSession,
                     ghost reason: string, duration: int, horizon: nat)
    returns (end: RunEnd)
    requires env.L().lost == {} && OpeningLogged(env.L().events, q, session.id, reason)
    requires Live(session.View()) && session.status == OPENING && Belongs(env.L().stamps, session.View())
    requires brokered.Holds(env.L()) && !brokered.channel.closed && duration > 0
    requires brokered.channel.channel in env.L().link.shells && !ConnectionRefused(env.L())
    requires env.L().closeFailures == {} && env.L().relay == NO_RELAY
    modifies env, session, brokered, brokered.connection, brokered.channel
    ensures RunLeaves(end, env.L(), q, session.View(), reason, duration, horizon)
    ensures SameSession(old(session.View()), session.View())
    ensures env.L().ports == old(env.L().ports) && env.L().link == old(env.L().link)
  {
    hide Advance, Permitted, Fold, IsBlank, Admissible, NearlyBalanced, Balanced, Committed, ConnectionRefused;
    hide ChannelCloseFailed, ConnectionCloseFailed, OpeningLogged, RelayedReason, LifeLogged, TerminalEventAgrees;
    hide EventIs, EndExplained, Verdict;
    ghost var started, whenOpen := session.View(), env.L();
    var active := Activate(env, q, session, reason);
    if !active {
      var _ := brokered.Close(env);
      NothingRelayed(duration, horizon);
      LostEndExplained(env.L(), started, session.View());
      return Interrupted;
    }
    ActiveIsCommitted(env.L().events, q, session.id, reason);
    var result, closeRaised := RelayThenClose(env, brokered, duration, horizon);
    SameRefusal(whenOpen, env.L());
    if result.StillRunning? {
      LiveEndExplained(env.L(), session.View());
      return Running;
    }
    ghost var live, closedLedger := session.View(), env.L();
    var ok := EndRelayed(env, q, session, result, closeRaised, reason);
    SameFacts(closedLedger, env.L());
    RelayedEndExplained(OfLedger(env.L()), live, session.View(), result, closeRaised);
    end := if ok then Finished else Interrupted;
  }

  lemma LostEndExplained(l: Ledger, before: Snapshot, after: Snapshot)
    requires LostEarly(l.lost) && EndedBecause(before, after, FAILED, AUDIT_PERSISTENCE_FAILED)
    ensures EndExplained(OfLedger(l), after)
  {
    hide Admissible, ConnectionCloseFailed, ChannelCloseFailed, ConnectionRefused;
  }

  lemma RefusedEndExplained(l: Ledger, before: Snapshot, after: Snapshot)
    requires !LostEarly(l.lost) && ConnectionRefused(l) && EndedBecause(before, after, FAILED, BROKER_OPEN_FAILED)
    ensures EndExplained(OfLedger(l), after)
  {
    hide Admissible, ConnectionCloseFailed, ChannelCloseFailed, ConnectionRefused;
  }

  lemma LiveEndExplained(l: Ledger, s: Snapshot)
    requires l.lost == {} && !ConnectionRefused(l) && RelayVerdict(OfLedger(l)) == RelayResult.StillRunning
    requires Admissible(s) && s.status == ACTIVE
    ensures EndExplained(OfLedger(l), s)
  {
    hide ConnectionCloseFailed, ChannelCloseFailed, ConnectionRefused, RelayVerdict;
  }

  lemma RelayedEndExplained(f: Facts, before: Snapshot, after: Snapshot, relay: RelayResult, closeRaised: bool)
    requires !LostEarly(f.lost) && !f.refused
    requires relay == RelayVerdict(f) && relay != RelayResult.StillRunning && closeRaised == f.connectionCloseFailed
    requires EndedBecause(before, after, if relay.Returned? && !closeRaised then CLOSED else FAILED,
                          RelayedReason(relay, closeRaised))
    ensures EndExplained(f, after)
  {
    hide Admissible, RelayedReason, RelayVerdict;
  }

  lemma NothingRelayed(duration: int, horizon: nat)
    ensures RelayKept(NO_RELAY, false, duration, horizon)
  {
  }

  lemma SameRefusal(l: Ledger, m: Ledger)
    requires l.link == m.link && l.ports == m.ports
    ensures ConnectionRefused(l) <==> ConnectionRefused(m)
  {
  }

  /** Logging changes no fact but what was lost. */
  lemma SameFacts(l: Ledger, m: Ledger)
    requires OnlyLogged(l, m)
    ensures OfLedger(m) == OfLedger(l).(lost := m.lost)
  {
    SameRefusal(l, m);
  }

  lemma ActiveIsCommitted(events: seq<AuditEvent>, q: AccessRequest, sid: string, reason: string)
    requires ActiveLogged(events, q, sid, reason)
    ensures Committed(events, SESSION_ACTIVE)
  {
    assert events[2] in events;
  }

  lemma OpeningIsCommitted(events: seq<AuditEvent>, q: AccessRequest, sid: string, reason: string)
    requires OpeningLogged(events, q, sid, reason)
    ensures Committed(events, ACCESS_ALLOWED) && Committed(events, SESSION_OPENING)
  {
    assert events[0] in events && events[1] in events;
  }

  /** The vault has answered, and nothing was logged or connected yet. */
  ghost predicate BeforeConnection(l: Ledger, credential: Bytes) {
    && l.safe && l.ports.credential == Some(credential) && l.events == [] && l.lost == {}
    && l.link == NO_LINK && l.open == {} && l.closeFailures == {} && l.relay == NO_RELAY
  }

  /** Everything after the session object exists. */
  method RunSession(env: Environment, q: AccessRequest, target: Config.Target, account: Config.Account,
                    credential: Bytes, session: Session, reason: string, duration: int, horizon: nat)
    returns (end: RunEnd)
    requires BeforeConnection(env.L(), credential) && duration > 0
    requires Live(session.View()) && session.status == OPENING && Belongs(env.L().stamps, session.View())
    modifies env, session
    ensures RunLeaves(end, env.L(), q, session.View(), reason, duration, horizon)
    ensures SameSession(old(session.View()), session.View())
    ensures env.L().ports == old(env.L().ports)
    ensures env.L().link.dialled.Some? ==> env.L().link.dialled == Some(target)
    ensures LoginIs(env.L().link, account, credential)
  {
    hide Advance, Permitted, Fold, IsBlank, Admissible, NearlyBalanced, Committed, EndExplained, EventIs;
    hide ConnectionCloseFailed, ChannelCloseFailed, LifeLogged, TerminalEventAgrees, RelayVerdict, Utf8.Decode;
    ghost var started := session.View();
    var ok := LogOpening(env, q, session, reason);
    if !ok {
      LostEndExplained(env.L(), started, session.View());
      return Interrupted;
    }
    OpeningIsCommitted(env.L().events, q, session.id, reason);
    ghost var logged := env.L();
    var brokered := OpenSession(env, target, account, credential);
    if brokered == null {
      end := FailUnopened(env, q, session, reason, duration, horizon);
    } else {
      end := RunBrokered(env, q, session, brokered, reason, duration, horizon);
    }
  }

  /** The broker could not open: the session fails, and so says the log. */
  method FailUnopened(env: Environment, q: AccessRequest, session: Session, ghost reason: string,
                      ghost duration: int, ghost horizon: nat)
    returns (end: RunEnd)
    requires env.L().safe && env.L().open == {} && env.L().lost == {} && env.L().relay == NO_RELAY
    requires OpeningLogged(env.L().events, q, session.id, reason) && ConnectionRefused(env.L())
    requires Live(session.View()) && duration > 0 && Belongs(env.L().stamps, session.View())
    modifies env, session
    ensures RunLeaves(end, env.L(), q, session.View(), reason, duration, horizon)
    ensures SameSession(old(session.View()), session.View())
    ensures OnlyLogged(old(env.L()), env.L())
  {
    hide Advance, Permitted, Fold, IsBlank, Admissible, EndExplained, ConnectionCloseFailed, ChannelCloseFailed;
    hide ConnectionRefused;
    WordIsNotBlank(BROKER_OPEN_FAILED);
    ghost var before, started := env.L(), session.View();
    var ok, e := FailSession(env, q, session, BROKER_OPEN_FAILED);
    SameRefusal(before, env.L());
    RefusedEndExplained(env.L(), started, session.View());
    assert (before.events + [e])[..|before.events|] == before.events;
    end := if ok then Finished else Interrupted;
  }

  // ---------------------------------------------------------------- runs without a session

  ghost predicate DenialLogged(events: seq<AuditEvent>, q: AccessRequest, decision: AccessDecision, actor: string) {
    |events| == 1 && EventIs(events[0], q, ACCESS_DENIED, None, "denied", Some(decision.reason), actor)
  }

  /** `_deny`. */
  method Deny(env: Environment, q: AccessRequest, decision: AccessDecision, actor: string) returns (outcome: Outcome)
    requires env.L().safe && env.L().events == [] && env.L().lost == {}
    modifies env
    ensures OnlyLogged(old(env.L()), env.L())
    ensures outcome == if env.L().lost == {} then Decided(decision) else Outcome.Raised
    ensures env.L().lost <= {ACCESS_DENIED}
    ensures outcome.Decided? ==> DenialLogged(env.L().events, q, decision, actor)
    ensures outcome.Raised? ==> env.L().events == []
  {
    hide Advance, Permitted, Fold;
    var ok, e := AppendEvent(env, q, ACCESS_DENIED, None, "denied", Some(decision.reason), actor, None);
    outcome := if ok then Decided(decision) else Outcome.Raised;
  }

  /** The fields that the session of a run starts with. */
  function NewSnapshot(id: string, q: AccessRequest, target: Config.Target, account: Config.Account, at: int): Snapshot
  {
    Snapshot(id, q.id, q.userId, target.id, account.id, OPENING, Aware(at), None, None)
  }

  /** `Session(...)` with a new id and the current time; null when its checks raise. */
  method NewSession(env: Environment, q: AccessRequest, target: Config.Target, account: Config.Account)
    returns (session: Session?)
    requires env.L().safe && env.L().stamps == NO_STAMPS
    modifies env
    ensures env.L() == old(env.L()).(stamps := env.L().stamps) && env.L().stamps.firstId.Some?
    ensures session == null ==>
              forall at :: !Admissible(NewSnapshot(env.L().stamps.firstId.value, q, target, account, at))
    ensures session != null ==> fresh(session) && Admissible(session.View())
    ensures session != null ==> Belongs(env.L().stamps, session.View())
    ensures session != null ==>
              session.View() == NewSnapshot(session.id, q, target, account, session.startedAt.at)
              && session.startedAt.Aware?
  {
    hide Advance, Permitted, Fold, IsBlank;
    var id := NewId(env);
    var startedAt := Now(env);
    session := Session.Create(NewSnapshot(id, q, target, account, startedAt));
  }

  // ---------------------------------------------------------------- the whole run

  /** The decision that a run without a session returns. */
  function RefusalOf(c: Checked): AccessDecision {
    if c.Refuse? then c.decision else AccessDecision(DENY, "credential_not_found")
  }

  /**
    * A run without a session: a refusal that is logged once, with no session id and the
    * authenticated principal as its actor, or an exception that logs nothing. It raises exactly when
    * a lookup raised or met rows that it rejects, the denial was not logged, or the credential was
    * there and the session's own checks raised.
    */
  ghost predicate RefusedRun(outcome: Outcome, f: Facts, events: seq<AuditEvent>, principal: string,
                             q: AccessRequest, tables: Tables)
  {
    var c := Checks(tables, principal, q);
    && !outcome.StillRelaying? && !f.relayed && f.lost <= {ACCESS_DENIED}
    && (outcome.Raised? <==>
          f.lookupRaised || c.Reject? || ACCESS_DENIED in f.lost || (c.Ask? && f.credentialFound))
    && (c.Ask? && !f.lookupRaised ==> f.vaultAsked)
    && (outcome.Decided? ==>
          outcome.decision == RefusalOf(c) && DenialLogged(events, q, RefusalOf(c), principal))
    && (outcome.Raised? ==> events == [])
  }

  function EndOf(outcome: Outcome): RunEnd {
    match outcome
    case Decided(_) => Finished
    case Raised => Interrupted
    case StillRelaying => Running
  }

  /**
    * A run with a session: it passed every check, and what happened determines whether it returned,
    * raised or still relays, what it logged, and how and why its session ended.
    */
  ghost predicate GrantedRun(outcome: Outcome, f: Facts, events: seq<AuditEvent>, principal: string,
                             q: AccessRequest, tables: Tables, s: Snapshot)
  {
    var c := Checks(tables, principal, q);
    && c.Ask? && f.credentialFound && !f.lookupRaised
    && (outcome.Decided? ==> outcome.decision == c.decision)
    && LogMatches(EndOf(outcome), events, f.lost, q, s, c.decision.reason)
    && RelayMatches(EndOf(outcome), f)
    && EndExplained(f, s)
    && s.userId == principal == q.userId && s.requestId == q.id
    && s.targetId == c.target.id == q.targetId && s.accountId == c.account.id
  }

  /** A granted request whose session could not even be constructed: this id does not give good fields. */
  ghost predicate SessionRejected(id: string, principal: string, q: AccessRequest, tables: Tables) {
    var c := Checks(tables, principal, q);
    c.Ask? && forall at :: !Admissible(NewSnapshot(id, q, c.target, c.account, at))
  }

  // ---------------------------------------------------------------- what `handle` promises

  /** One run: what it was asked, the tables its queries saw, what came of it, and every call it made. */
  datatype Report = Report(
    principal: string,
    request: AccessRequest,
    tables: Tables,
    duration: int,
    horizon: nat,
    sha256: TraceSafety.Hash,
    outcome: Outcome,
    session: Option<Snapshot>,
    trace: seq<Effects.Call>)

  /** The relay runs for the given duration; unless a call of it raised, everything read was passed on. */
  ghost predicate RelayPromised(t: seq<Effects.Call>, running: bool, duration: int, horizon: nat) {
    && (forall i :: 0 <= i < |t| && t[i].op.StartClock? ==> t[i].op.duration == duration)
    && (forall i :: 0 <= i < |t| && (t[i].op.Receive? || t[i].op.ReadInput?) ==> t[i].op.max == 32768)
    && (!TraceSafety.FaultBefore(t, |t|) ==>
          && TraceSafety.Moved(WrittenBy, t, |t|) == TraceSafety.Moved(ReceivedBy, t, |t|)
          && TraceSafety.Moved(SentBy, t, |t|) == TraceSafety.Moved(ReadLocallyBy, t, |t|))
    && (running ==> TraceSafety.Waits(t, |t|) == horizon)
    && (TraceSafety.Ticking(t) && horizon >= duration ==> !running)
  }

  /**
    * The session's id is the first answer of the id source, and its start the first reading of the
    * wall clock, after that id was taken and before anything was appended; its end is the last
    * reading, but not before its start.
    */
  ghost predicate SessionStamped(t: seq<Effects.Call>, s: Snapshot, i: nat, k: nat) {
    && TraceSafety.FirstId(t, i, |t|) && s.id == t[i].reply.text
    && TraceSafety.FirstWall(t, k, |t|) && s.startedAt == Aware(t[k].reply.number)
    && i < k && (forall a :: 0 <= a < |t| && t[a].op.AppendEvent? ==> k < a)
    && (s.endedAt.Some? ==>
          exists m: nat :: TraceSafety.LastWall(t, m, |t|)
                           && s.endedAt == Some(Aware(Max(t[m].reply.number, t[k].reply.number))))
  }

  /** How the run ended is explained by its calls and by the tables. */
  ghost predicate OutcomePromised(r: Report) {
    var facts, events := OfTrace(r.sha256, r.trace), CommittedEvents(r.trace);
    match r.session
    case None =>
      && RefusedRun(r.outcome, facts, events, r.principal, r.request, r.tables)
      && (Checks(r.tables, r.principal, r.request).Ask? && facts.credentialFound ==>
            exists i: nat :: TraceSafety.FirstId(r.trace, i, |r.trace|)
                             && SessionRejected(r.trace[i].reply.text, r.principal, r.request, r.tables))
    case Some(s) =>
      && GrantedRun(r.outcome, facts, events, r.principal, r.request, r.tables, s)
      && exists i: nat, k: nat :: SessionStamped(r.trace, s, i, k)
  }

  ghost predicate CallsAuthorized(r: Report) {
    forall i :: 0 <= i < |r.trace| ==> CallAuthorized(r.trace[i].op, r.tables, r.principal, r.request)
  }

  /**
    * What `handle` promises of every run, whatever subset of calls raises. Its calls come in order,
    * and each is one that the stored rows authorize for this request; once the run is over, each
    * socket, transport and raw channel obtained has had exactly one close attempt; and session, log
    * and return value are those that the calls determine.
    */
  ghost predicate Promised(r: Report) {
    && TraceSafety.InOrder(r.sha256, r.trace)
    && CallsAuthorized(r)
    && (r.outcome != StillRelaying ==> TraceSafety.ReleasedExactlyOnce(r.trace))
    && OutcomePromised(r)
    && RelayPromised(r.trace, r.outcome.StillRelaying?, r.duration, r.horizon)
  }

  lemma PortsAuthorizeCalls(r: Report)
    requires var l := Fold(r.sha256, r.trace);
             l.safe && PortsAuthorized(l, r.tables, r.principal, r.request)
    ensures CallsAuthorized(r)
  {
    hide Fold, MayAskVault, MayDial, MayLogin, MayLookUp;
    assert r.trace[..|r.trace|] == r.trace;
    TraceSafety.OnceAlwaysMeans(r.sha256, r.trace, |r.trace|);
    forall i | 0 <= i < |r.trace|
      ensures CallAuthorized(r.trace[i].op, r.tables, r.principal, r.request)
    {
      assert TraceSafety.RecordedIn(Fold(r.sha256, r.trace), r.trace[i]);
    }
  }

  lemma KeptMeansPromised(r: Report)
    requires var l := Fold(r.sha256, r.trace);
             l.safe && RelayKept(l.relay, r.outcome.StillRelaying?, r.duration, r.horizon)
    ensures RelayPromised(r.trace, r.outcome.StillRelaying?, r.duration, r.horizon)
  {
    hide Fold, TraceSafety.FaultBefore, TraceSafety.Ticking, TraceSafety.Moved, TraceSafety.Waits;
    hide TraceSafety.ChannelUnread, TraceSafety.TerminalUnread, TraceSafety.EndBefore, TraceSafety.ReadAt;
    var n := |r.trace|;
    assert r.trace[..n] == r.trace;
    TraceSafety.StopsAlwaysMean(r.sha256, r.trace, n);
    TraceSafety.BytesAlwaysMean(r.sha256, r.trace, n);
    TraceSafety.WaitsAlwaysCounted(r.sha256, r.trace, n);
    TraceSafety.OnceAlwaysMeans(r.sha256, r.trace, n);
    if TraceSafety.Ticking(r.trace) {
      TraceSafety.TickingIsSteady(r.sha256, r.trace, n);
    }
    forall i | 0 <= i < n && r.trace[i].op.StartClock?
      ensures r.trace[i].op.duration == r.duration
    {
      assert TraceSafety.RecordedIn(Fold(r.sha256, r.trace), r.trace[i]);
    }
    forall i | 0 <= i < n && (r.trace[i].op.Receive? || r.trace[i].op.ReadInput?)
      ensures r.trace[i].op.max == 32768
    {
      assert TraceSafety.RecordedIn(Fold(r.sha256, r.trace), r.trace[i]);
      assert r.trace[i].op.max in Fold(r.sha256, r.trace).relay.asked;
    }
  }

  lemma FirstIdWasTaken(r: Report, id: string)
    requires Fold(r.sha256, r.trace).stamps.firstId == Some(id)
    ensures exists i: nat :: TraceSafety.FirstId(r.trace, i, |r.trace|) && r.trace[i].reply.text == id
  {
    hide Fold, TraceSafety.FirstId, TraceSafety.FirstWall, TraceSafety.LatestMean;
    assert r.trace[..|r.trace|] == r.trace;
    TraceSafety.StampsAlwaysMean(r.sha256, r.trace, |r.trace|);
  }

  lemma BelongsMeansStamped(r: Report, s: Snapshot)
    requires var l := Fold(r.sha256, r.trace); l.safe && Belongs(l.stamps, s) && EndIsRead(l.stamps, s)
    requires TraceSafety.InOrder(r.sha256, r.trace)
    ensures exists i: nat, k: nat :: SessionStamped(r.trace, s, i, k)
  {
    hide Fold, TraceSafety.NewestId, TraceSafety.NoAppendSince, TraceSafety.Conserved;
    hide TraceSafety.VaultInOrder, TraceSafety.DialInOrder, TraceSafety.PasswordInOrder, TraceSafety.ShellInOrder;
    hide TraceSafety.RelayInOrder, TraceSafety.BytesInOrder, TraceSafety.CloseInOrder;
    var t, n, p := r.trace, |r.trace|, Fold(r.sha256, r.trace).stamps;
    assert t[..n] == t;
    TraceSafety.StampsAlwaysMean(r.sha256, t, n);
    var i: nat :| TraceSafety.FirstId(t, i, n) && t[i].reply.text == s.id;
    var k: nat :| TraceSafety.FirstWall(t, k, n) && t[k].reply.number == p.firstReading.value;
    assert i < k by {
      assert TraceSafety.CallInOrder(r.sha256, t, k);
    }
    forall a | 0 <= a < n && t[a].op.AppendEvent?
      ensures k < a
    {
      assert TraceSafety.CallInOrder(r.sha256, t, a);
    }
    assert SessionStamped(t, s, i, k);
  }

  /** `handle`. */
  method Handle(env: Environment, principal: string, q: AccessRequest, tables: Tables, duration: int, horizon: nat)
    returns (outcome: Outcome, session: Session?)
    requires env.trace == [] && duration > 0
    modifies env
    ensures session != null ==> fresh(session)
    ensures Promised(Report(principal, q, tables, duration, horizon, env.sha256, outcome,
                            if session == null then None else Some(session.View()), env.trace))
  {
    hide Fold, Advance, Permitted, Checks, RelayKept, RelayPromised, PortsAuthorized, CallsAuthorized;
    hide RefusedRun, GrantedRun, SessionRejected, OfLedger, OfTrace, CommittedEvents, TraceSafety.FirstId;
    hide SessionStamped, Belongs, EndIsRead;
    hide TraceSafety.InOrder, TraceSafety.ReleasedExactlyOnce;
    outcome, session := HandleRequest(env, principal, q, tables, duration, horizon);
    ghost var r := Report(principal, q, tables, duration, horizon, env.sha256, outcome,
                          if session == null then None else Some(session.View()), env.trace);
    LedgerTellsTheTrace(env.sha256, env.trace);
    CredentialFact(env.L());
    TraceSafety.SafeMeansInOrder(env.sha256, env.trace);
    if outcome != StillRelaying {
      TraceSafety.SafeAndEmptyReleasesOnce(env.sha256, env.trace);
    }
    if env.L().stamps.firstId.Some? {
      FirstIdWasTaken(r, env.L().stamps.firstId.value);
    }
    if session != null {
      BelongsMeansStamped(r, session.View());
    }
    PortsAuthorizeCalls(r);
    KeptMeansPromised(r);
  }

  lemma CredentialFact(l: Ledger)
    ensures OfLedger(l).credentialFound <==> l.ports.credential.Some?
  {
    hide ConnectionRefused, ChannelCloseFailed, ConnectionCloseFailed;
  }

  /** The body of `handle`, told by the ledger. */
  method HandleRequest(env: Environment, principal: string, q: AccessRequest, tables: Tables, duration: int,
                       horizon: nat)
    returns (outcome: Outcome, session: Session?)
    requires env.trace == [] && duration > 0
    modifies env
    ensures env.L().safe && (outcome != StillRelaying ==> env.L().open == {})
    ensures session == null ==>
              && RefusedRun(outcome, OfLedger(env.L()), env.L().events, principal, q, tables)
              && (Checks(tables, principal, q).Ask? && env.L().ports.credential.Some? ==>
                    && env.L().stamps.firstId.Some?
                    && SessionRejected(env.L().stamps.firstId.value, principal, q, tables))
    ensures session != null ==>
              && fresh(session)
              && Belongs(env.L().stamps, session.View()) && EndIsRead(env.L().stamps, session.View())
              && GrantedRun(outcome, OfLedger(env.L()), env.L().events, principal, q, tables, session.View())
    ensures RelayKept(env.L().relay, outcome.StillRelaying?, duration, horizon)
    ensures PortsAuthorized(env.L(), tables, principal, q)
  {
    hide Fold, Advance, Permitted, Checks, PortsAuthorized, GrantedRun, SessionRejected, RelayKept, DenialLogged;
    hide ChannelCloseFailed, ConnectionCloseFailed, ConnectionRefused;
    NothingYet(env.sha256);
    session := null;
    ChecksDecide(tables, principal, q);
    NothingRelayed(duration, horizon);
    var auth := Authorize(env, principal, q, tables);
    match auth {
      case LookupRaised =>
        outcome := Outcome.Raised;
      case Refused(decision) =>
        outcome := Deny(env, q, decision, if principal != q.userId then principal else q.userId);
      case Granted(decision, target, account, credential) =>
        outcome, session :=
          RunGranted(env, principal, q, tables, decision, target, account, credential, duration, horizon);
    }
    PassedChecksAuthorize(env.L(), tables, principal, q);
  }

  /** The granted part of `handle`: the session object, and its run. */
  method RunGranted(env: Environment, principal: string, q: AccessRequest, ghost tables: Tables,
                    decision: AccessDecision, target: Config.Target, account: Config.Account, credential: Bytes,
                    duration: int, horizon: nat)
    returns (outcome: Outcome, session: Session?)
    requires env.L() == EMPTY_LEDGER.(ports := env.L().ports) && duration > 0
    requires env.L().ports.credential == Some(credential) && !env.L().ports.raised
    requires Checks(tables, principal, q) == Ask(decision, target, account)
    requires principal == q.userId && target.id == q.targetId
    modifies env
    ensures env.L().safe && (outcome != StillRelaying ==> env.L().open == {})
    ensures session == null ==>
              && env.L() == old(env.L()).(stamps := env.L().stamps) && outcome == Outcome.Raised
              && env.L().stamps.firstId.Some?
              && SessionRejected(env.L().stamps.firstId.value, principal, q, tables)
    ensures session != null ==>
              && fresh(session)
              && Belongs(env.L().stamps, session.View()) && EndIsRead(env.L().stamps, session.View())
              && GrantedRun(outcome, OfLedger(env.L()), env.L().events, principal, q, tables, session.View())
    ensures RelayKept(env.L().relay, outcome.StillRelaying?, duration, horizon)
    ensures env.L().ports == old(env.L().ports)
    ensures env.L().link.dialled.Some? ==> env.L().link.dialled == Some(target)
    ensures env.L().link.login.Some? ==> env.L().link.login.value.0 == account.username
  {
    hide Advance, Permitted, Fold, EventIs, Admissible, Checks, Utf8.Decode, EndExplained, LogMatches;
    hide RelayMatches, RelayVerdict;
    NothingRelayed(duration, horizon);
    session := NewSession(env, q, target, account);
    if session == null {
      outcome := Outcome.Raised;
    } else {
      var end := RunSession(env, q, target, account, credential, session, decision.reason, duration, horizon);
      outcome := match end
        case Finished => Decided(decision)
        case Interrupted => Outcome.Raised
        case Running => StillRelaying;
    }
  }

  // ---------------------------------------------------------------- what the promise comes to

  /** The vault answered for this reference, and this is the text of its answer. */
  ghost predicate AnsweredWith(t: seq<Effects.Call>, reference: string, password: string, i: nat)
    requires i < |t|
  {
    && t[i].op == ResolveCredential(reference) && CredentialFound(t[i])
    && Utf8.Decode(t[i].reply.data) == Some(password)
  }

  /** On this transport, whose socket was dialled to this target, the server showed the key the target pins. */
  ghost predicate KeyShownFor(sha256: TraceSafety.Hash, t: seq<Effects.Call>, tr: nat, target: Config.Target, i: nat)
    requires i < |t|
  {
    && t[i].op == GetServerKey(tr) && !t[i].reply.raised
    && Fingerprint.PinMatches(sha256, target.expectedHostKey, t[i].reply.data)
    && tr < i && t[tr].op.CreateTransport? && t[tr].op.socket < tr
    && t[t[tr].op.socket].op == ConnectSocket(target)
  }

  lemma AuthorizedIsChecked(r: Report, target: Config.Target, account: Config.Account)
    requires AuthorizedFor(r.tables, r.principal, r.request, target, account)
    ensures var c := Checks(r.tables, r.principal, r.request);
            c.Ask? && c.target == target && c.account == account
  {
    hide AuthorizedFor, Checks;
    AskIffAuthorized(r.tables, r.principal, r.request, target, account);
  }

  lemma DialledIsChecked(r: Report, s: nat)
    requires CallsAuthorized(r) && s < |r.trace| && r.trace[s].op.ConnectSocket?
    ensures var c := Checks(r.tables, r.principal, r.request);
            c.Ask? && r.trace[s].op.target == c.target
  {
    hide AuthorizedFor, Checks;
    assert CallAuthorized(r.trace[s].op, r.tables, r.principal, r.request);
    var account :| AuthorizedFor(r.tables, r.principal, r.request, r.trace[s].op.target, account);
    AuthorizedIsChecked(r, r.trace[s].op.target, account);
  }

  lemma AskedIsChecked(r: Report, i: nat)
    requires CallsAuthorized(r) && i < |r.trace| && r.trace[i].op.ResolveCredential?
    ensures var c := Checks(r.tables, r.principal, r.request);
            c.Ask? && r.trace[i].op.reference == c.account.credentialRef
  {
    hide AuthorizedFor, Checks;
    assert CallAuthorized(r.trace[i].op, r.tables, r.principal, r.request);
    var target, account :|
      AuthorizedFor(r.tables, r.principal, r.request, target, account)
      && account.credentialRef == r.trace[i].op.reference;
    AuthorizedIsChecked(r, target, account);
  }

  /** The key was shown on a connection to the one target that the stored rows authorize. */
  lemma KeyWasShown(r: Report, tr: nat, j: nat)
    requires CallsAuthorized(r) && j < |r.trace| && TraceSafety.KeyMatchedBefore(r.sha256, r.trace, tr, j)
    ensures var c := Checks(r.tables, r.principal, r.request);
            c.Ask? && exists k: nat :: k < j && KeyShownFor(r.sha256, r.trace, tr, c.target, k)
  {
    hide Fingerprint.PinMatches, Checks, CallsAuthorized;
    var k: nat :| k < j && TraceSafety.ShowsPinnedKey(r.sha256, r.trace, tr, k);
    var pin :| TraceSafety.TransportFor(r.trace, tr, pin, k)
               && Fingerprint.PinMatches(r.sha256, pin, r.trace[k].reply.data);
    var s := r.trace[tr].op.socket;
    DialledIsChecked(r, s);
    assert KeyShownFor(r.sha256, r.trace, tr, Checks(r.tables, r.principal, r.request).target, k);
  }

  lemma CredentialWasAnswered(r: Report, password: string, j: nat)
    requires CallsAuthorized(r) && j < |r.trace|
    requires exists credential ::
               TraceSafety.CredentialBefore(r.trace, credential, j) && Utf8.Decode(credential) == Some(password)
    ensures var c := Checks(r.tables, r.principal, r.request);
            c.Ask? && exists i: nat :: i < j && AnsweredWith(r.trace, c.account.credentialRef, password, i)
  {
    hide Utf8.Decode, Checks, CallsAuthorized;
    var credential :|
      TraceSafety.CredentialBefore(r.trace, credential, j) && Utf8.Decode(credential) == Some(password);
    var i :| 0 <= i < j && CredentialFound(r.trace[i]) && r.trace[i].reply.data == credential;
    AskedIsChecked(r, i);
    assert AnsweredWith(r.trace, Checks(r.tables, r.principal, r.request).account.credentialRef, password, i);
  }

  /**
    * The central promise, over the calls of any run of `handle`: if a password is sent, then the
    * stored rows authorize the principal for one target and one account; the user name is that
    * account's and the password is the text that the vault answered for its reference; the server has
    * shown that target's pinned key on the very transport the password goes to; ACCESS_ALLOWED and
    * SESSION_OPENING are in the log; and no password was sent before.
    */
  lemma PasswordNeedsEverything(r: Report, j: nat)
    requires Promised(r) && j < |r.trace| && r.trace[j].op.AuthPassword?
    ensures exists target, account ::
              && AuthorizedFor(r.tables, r.principal, r.request, target, account)
              && r.trace[j].op.username == account.username
              && (exists i: nat ::
                    i < j && AnsweredWith(r.trace, account.credentialRef, r.trace[j].op.password, i))
              && (exists k: nat :: k < j && KeyShownFor(r.sha256, r.trace, r.trace[j].op.transport, target, k))
    ensures TraceSafety.LoggedBefore(r.trace, ACCESS_ALLOWED, j)
    ensures TraceSafety.LoggedBefore(r.trace, SESSION_OPENING, j)
    ensures forall i :: 0 <= i < j ==> !r.trace[i].op.AuthPassword?
  {
    hide AuthorizedFor, Checks, OutcomePromised, RelayPromised, TraceSafety.ReleasedExactlyOnce, Utf8.Decode;
    hide TraceSafety.KeyMatchedBefore, TraceSafety.LoggedBefore, TraceSafety.Conserved, AnsweredWith, KeyShownFor;
    hide TraceSafety.RelayInOrder, TraceSafety.ShellInOrder, TraceSafety.BytesInOrder, TraceSafety.CloseInOrder;
    assert TraceSafety.CallInOrder(r.sha256, r.trace, j);
    assert CallAuthorized(r.trace[j].op, r.tables, r.principal, r.request);
    var target, account :|
      AuthorizedFor(r.tables, r.principal, r.request, target, account)
      && account.username == r.trace[j].op.username;
    AuthorizedIsChecked(r, target, account);
    CredentialWasAnswered(r, r.trace[j].op.password, j);
    KeyWasShown(r, r.trace[j].op.transport, j);
  }

  predicate FailsToClose(c: Effects.Call) {
    c.op.Close? && c.reply.raised
  }

  /**
    * When `handle` returns with a session, the session is CLOSED exactly when connecting succeeded, no
    * call of the relay failed and no close attempt raised; every byte read was then passed on, and the
    * reason is the deadline exactly when a reading was late. Otherwise it is FAILED, for the first of
    * these that went wrong.
    */
  lemma ClosedExactlyWhenNothingFailed(r: Report)
    requires Promised(r) && r.session.Some? && r.outcome.Decided?
    ensures var t, n, s, f := r.trace, |r.trace|, r.session.value, OfTrace(r.sha256, r.trace);
            && (s.status == CLOSED <==> !f.refused && !f.faulted && !Any(t, n, FailsToClose))
            && (s.status == CLOSED ==>
                  && TraceSafety.Moved(WrittenBy, t, n) == TraceSafety.Moved(ReceivedBy, t, n)
                  && TraceSafety.Moved(SentBy, t, n) == TraceSafety.Moved(ReadLocallyBy, t, n)
                  && (s.closeReason == Some("max_duration_exceeded") <==> f.late)
                  && (s.closeReason == Some("relay_completed") <==> !f.late))
            && (s.status != CLOSED ==>
                  s.status == FAILED
                  && s.closeReason == Some(if f.refused then "broker_open_failed"
                                           else if f.faulted || f.channelCloseFailed then "relay_failed"
                                           else "broker_close_failed"))
  {
    hide CallsAuthorized, TraceSafety.InOrder, TraceSafety.ReleasedExactlyOnce, Checks, Admissible, LifeLogged;
    hide TraceSafety.Moved, TraceSafety.FaultBefore, ConnectionFailed, TraceSafety.LateBefore, TraceSafety.EndBefore;
    assert |RELAY_MAX_DURATION| != |RELAY_COMPLETED|;
    CloseFailuresSplit(r.trace, |r.trace|);
  }

  lemma CloseFailuresSplit(t: seq<Effects.Call>, n: nat)
    requires n <= |t|
    ensures Any(t, n, FailsToClose) <==> Any(t, n, FailsToCloseChannel) || Any(t, n, FailsToCloseConnection)
  {
    if Any(t, n, FailsToClose) {
      var i :| 0 <= i < n && FailsToClose(t[i]);
      assert FailsToCloseChannel(t[i]) || FailsToCloseConnection(t[i]);
    }
  }

  /** The channel was found closed, or an end was read and had nothing more. */
  ghost predicate FindsTheEnd(c: Effects.Call) {
    || (c.op.ChannelFlag? && c.reply.flag)
    || (c.op.Receive? && !c.reply.raised && c.reply.data == [])
    || (c.op.ReadInput? && !c.reply.raised && c.reply.data == [])
  }

  /**
    * The reason of every ended session, in the order of precedence: an event before the relay was
    * lost, the broker could not open, the relay or its channel's close raised, the connection's close
    * raised, the deadline passed; and only when none of these, the relay completed, which takes an end
    * of file or a closed channel.
    */
  lemma EndInWords(r: Report)
    requires Promised(r) && r.session.Some? && !r.outcome.StillRelaying?
    ensures var t, n, f, reason := r.trace, |r.trace|, OfTrace(r.sha256, r.trace), r.session.value.closeReason;
            if ACCESS_ALLOWED in f.lost || SESSION_OPENING in f.lost || SESSION_ACTIVE in f.lost
            then reason == Some("audit_persistence_failed")
            else if f.refused then reason == Some("broker_open_failed")
            else if f.faulted || f.channelCloseFailed then reason == Some("relay_failed")
            else if f.connectionCloseFailed then reason == Some("broker_close_failed")
            else if f.late then reason == Some("max_duration_exceeded")
            else reason == Some("relay_completed") && exists i :: 0 <= i < n && FindsTheEnd(t[i])
  {
    hide CallsAuthorized, RelayPromised, TraceSafety.InOrder, TraceSafety.ReleasedExactlyOnce, Checks, Admissible;
    hide LogMatches, SessionStamped, TraceSafety.FaultBefore, ConnectionFailed, TraceSafety.LateBefore;
    var f := OfTrace(r.sha256, r.trace);
    if f.ended {
      var i :| 0 <= i < |r.trace| && RelayEnd(r.trace[i]);
      assert FindsTheEnd(r.trace[i]);
    }
  }
}
