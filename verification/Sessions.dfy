/** src/domain/session.py: the session object, its construction checks and its three transitions. */
module Sessions {
  import opened Basics

  datatype Status = OPENING | ACTIVE | CLOSED | FAILED

  /** A datetime with a UTC offset, or one without. */
  datatype Instant = Aware(at: int) | Naive

  /** The characters that `str.strip` removes. */
  predicate IsSpace(c: char) {
    var v := c as int;
    || 0x09 <= v <= 0x0D || 0x1C <= v <= 0x20 || v == 0x85 || v == 0xA0 || v == 0x1680
    || 0x2000 <= v <= 0x200A || v == 0x2028 || v == 0x2029 || v == 0x202F || v == 0x205F || v == 0x3000
  }

  predicate IsBlank(s: string) {
    forall i :: 0 <= i < |s| ==> IsSpace(s[i])
  }

  /** The fields of a session. */
  datatype Snapshot = Snapshot(
    id: string,
    requestId: string,
    userId: string,
    targetId: string,
    accountId: string,
    status: Status,
    startedAt: Instant,
    endedAt: Option<Instant>,
    closeReason: Option<string>)

  predicate Terminal(status: Status) {
    status == CLOSED || status == FAILED
  }

  predicate ValidEnd(startedAt: Instant, endedAt: Instant) {
    startedAt.Aware? && endedAt.Aware? && startedAt.at <= endedAt.at
  }

  predicate ValidReason(reason: Option<string>) {
    reason.Some? && !IsBlank(reason.value)
  }

  /** `__post_init__` accepts these fields. */
  predicate Admissible(s: Snapshot) {
    && !IsBlank(s.id) && !IsBlank(s.requestId) && !IsBlank(s.userId)
    && !IsBlank(s.targetId) && !IsBlank(s.accountId)
    && s.startedAt.Aware?
    && (s.endedAt.Some? ==> ValidEnd(s.startedAt, s.endedAt.value))
    && (if Terminal(s.status) then s.endedAt.Some? && ValidReason(s.closeReason)
        else s.endedAt.None? && s.closeReason.None?)
  }

  /** The code points that `str.strip` removes, one by one. */
  const SPACES: set<int> :=
    {0x09, 0x0A, 0x0B, 0x0C, 0x0D, 0x1C, 0x1D, 0x1E, 0x1F, 0x20, 0x85, 0xA0, 0x1680, 0x2000, 0x2001, 0x2002, 0x2003,
     0x2004, 0x2005, 0x2006, 0x2007, 0x2008, 0x2009, 0x200A, 0x2028, 0x2029, 0x202F, 0x205F, 0x3000}

  lemma BlankMeansOnlySpaces(s: string)
    ensures IsBlank(s) <==> forall i :: 0 <= i < |s| ==> s[i] as int in SPACES
  {
  }

  /** The checks status by status: a live session has neither end nor reason, an ended one has both, in time. */
  lemma AdmissibleByStatus(s: Snapshot)
    ensures Admissible(s) <==>
            && (forall text :: text in [s.id, s.requestId, s.userId, s.targetId, s.accountId] ==> !IsBlank(text))
            && s.startedAt.Aware?
            && match s.status
               case OPENING => s.endedAt == None && s.closeReason == None
               case ACTIVE => s.endedAt == None && s.closeReason == None
               case _ =>
                 && s.endedAt.Some? && s.endedAt.value.Aware? && s.endedAt.value.at >= s.startedAt.at
                 && s.closeReason.Some? && !IsBlank(s.closeReason.value)
  {
    var texts := [s.id, s.requestId, s.userId, s.targetId, s.accountId];
    assert texts[0] in texts && texts[1] in texts && texts[2] in texts && texts[3] in texts && texts[4] in texts;
  }

  datatype Call =
    | MarkActive
    | MarkFailed(endedAt: Instant, reason: Option<string>)
    | MarkClosed(endedAt: Instant, reason: Option<string>)

  /** The call returns instead of raising. */
  predicate Accepts(s: Snapshot, c: Call) {
    match c
    case MarkActive => s.status == OPENING
    case MarkFailed(endedAt, reason) => !Terminal(s.status) && ValidEnd(s.startedAt, endedAt) && ValidReason(reason)
    case MarkClosed(endedAt, reason) => s.status == ACTIVE && ValidEnd(s.startedAt, endedAt) && ValidReason(reason)
  }

  /** The fields after a call; a call that raises changes nothing. */
  function After(s: Snapshot, c: Call): Snapshot {
    if !Accepts(s, c) then s
    else
      match c
      case MarkActive => s.(status := ACTIVE)
      case MarkFailed(endedAt, reason) => s.(status := FAILED, endedAt := Some(endedAt), closeReason := reason)
      case MarkClosed(endedAt, reason) => s.(status := CLOSED, endedAt := Some(endedAt), closeReason := reason)
  }

  class Session {
    const id: string
    const requestId: string
    const userId: string
    const targetId: string
    const accountId: string
    const startedAt: Instant
    var status: Status
    var endedAt: Option<Instant>
    var closeReason: Option<string>

    ghost function View(): Snapshot
      reads this
    {
      Snapshot(id, requestId, userId, targetId, accountId, status, startedAt, endedAt, closeReason)
    }

    constructor (s: Snapshot)
      requires Admissible(s)
      ensures View() == s
    {
      id, requestId, userId := s.id, s.requestId, s.userId;
      targetId, accountId := s.targetId, s.accountId;
      startedAt := s.startedAt;
      status, endedAt, closeReason := s.status, s.endedAt, s.closeReason;
    }

    /** Construction as the callers see it: an object, or an exception when a check fails. */
    static method Create(s: Snapshot) returns (session: Session?)
      ensures session != null <==> Admissible(s)
      ensures session != null ==> fresh(session) && session.View() == s
    {
      if !Admissible(s) {
        return null;
      }
      session := new Session(s);
    }

    method MarkActive() returns (ok: bool)
      modifies this
      ensures ok == old(Accepts(View(), Call.MarkActive))
      ensures View() == old(After(View(), Call.MarkActive))
    {
      if status != OPENING {
        return false;
      }
      status := ACTIVE;
      return true;
    }

    method MarkFailed(at: Instant, reason: Option<string>) returns (ok: bool)
      modifies this
      ensures ok == old(Accepts(View(), Call.MarkFailed(at, reason)))
      ensures View() == old(After(View(), Call.MarkFailed(at, reason)))
    {
      if status != OPENING && status != ACTIVE {
        return false;
      }
      if !ValidEnd(startedAt, at) || !ValidReason(reason) {
        return false;
      }
      status := FAILED;
      endedAt := Some(at);
      closeReason := reason;
      return true;
    }

    method MarkClosed(at: Instant, reason: Option<string>) returns (ok: bool)
      modifies this
      ensures ok == old(Accepts(View(), Call.MarkClosed(at, reason)))
      ensures View() == old(After(View(), Call.MarkClosed(at, reason)))
    {
      if status != ACTIVE {
        return false;
      }
      if !ValidEnd(startedAt, at) || !ValidReason(reason) {
        return false;
      }
      status := CLOSED;
      endedAt := Some(at);
      closeReason := reason;
      return true;
    }
  }

  // ---------------------------------------------------------------- call histories

  function Replay(s: Snapshot, calls: seq<Call>): Snapshot
    decreases |calls|
  {
    if calls == [] then s else Replay(After(s, calls[0]), calls[1..])
  }

  function AcceptedCalls(s: Snapshot, calls: seq<Call>): seq<Call>
    decreases |calls|
  {
    if calls == [] then []
    else (if Accepts(s, calls[0]) then [calls[0]] else []) + AcceptedCalls(After(s, calls[0]), calls[1..])
  }

  function TransitionsLeft(status: Status): nat {
    match status
    case OPENING => 2
    case ACTIVE => 1
    case _ => 0
  }

  /**
    * After any history of accepted and rejected calls the fields would still pass the
    * constructor's checks, identity and start are untouched, and each accepted call used up one
    * of the at most two transitions a session has.
    */
  lemma {:induction false} HistoryKeepsInvariant(s: Snapshot, calls: seq<Call>)
    requires Admissible(s)
    ensures var t := Replay(s, calls);
            && Admissible(t)
            && t == s.(status := t.status, endedAt := t.endedAt, closeReason := t.closeReason)
            && |AcceptedCalls(s, calls)| <= TransitionsLeft(s.status) - TransitionsLeft(t.status)
    decreases |calls|
  {
    if calls != [] {
      HistoryKeepsInvariant(After(s, calls[0]), calls[1..]);
    }
  }

  /** A terminal session absorbs every further call. */
  lemma {:induction false} TerminalAbsorbs(s: Snapshot, calls: seq<Call>)
    requires Terminal(s.status)
    ensures Replay(s, calls) == s && AcceptedCalls(s, calls) == []
  {
    if calls != [] {
      TerminalAbsorbs(s, calls[1..]);
    }
  }

  /** The accepted calls of a new session spell one of five words, and they alone decide its fields. */
  lemma {:induction false} AcceptedLanguage(s: Snapshot, calls: seq<Call>)
    requires s.status == OPENING
    ensures var a := AcceptedCalls(s, calls);
            && (a == [] || (|a| == 1 && !a[0].MarkClosed?)
                || (|a| == 2 && a[0].MarkActive? && !a[1].MarkActive?))
            && Replay(s, calls) == Replay(s, a)
  {
    if calls != [] {
      var next := After(s, calls[0]);
      if next.status == OPENING {
        AcceptedLanguage(next, calls[1..]);
        assert AcceptedCalls(s, calls) == AcceptedCalls(next, calls[1..]);
      } else if next.status == ACTIVE {
        ActiveLanguage(next, calls[1..]);
        var a := AcceptedCalls(next, calls[1..]);
        assert ([calls[0]] + a)[1..] == a;
      } else {
        TerminalAbsorbs(next, calls[1..]);
        assert Replay(s, [calls[0]]) == Replay(next, []);
      }
    }
  }

  lemma {:induction false} ActiveLanguage(s: Snapshot, calls: seq<Call>)
    requires s.status == ACTIVE
    ensures var a := AcceptedCalls(s, calls);
            && (a == [] || (|a| == 1 && !a[0].MarkActive?))
            && Replay(s, calls) == Replay(s, a)
  {
    if calls != [] {
      var next := After(s, calls[0]);
      if next.status == ACTIVE {
        ActiveLanguage(next, calls[1..]);
      } else {
        TerminalAbsorbs(next, calls[1..]);
        assert Replay(s, [calls[0]]) == Replay(next, []);
      }
    }
  }
}
