/**
  * The facts about a run that its outcome depends on, told by the ledger and told by the calls; the
  * two agree on every safe run.
  */
module RunFacts {
  import opened Basics
  import opened AuditEvents
  import opened Effects
  import opened SshStack
  import opened TerminalRelay
  import opened Broker
  import opened TraceSafety
  import Fingerprint
  import Utf8

  datatype Facts = Facts(
    lookupRaised: bool,             // a repository or the vault raised
    vaultAsked: bool,
    credentialFound: bool,
    lost: set<AuditEventType>,      // the kinds of event whose append raised
    refused: bool,                  // the broker could not open a session
    relayed: bool,                  // the relay started its clock
    faulted: bool,                  // a call of the relay raised, or a write took nothing
    late: bool,                     // a reading of the clock was at or past the deadline
    ended: bool,                    // the channel was found closed, or an end delivered its end of file
    channelCloseFailed: bool,
    connectionCloseFailed: bool)

  ghost function OfLedger(l: Ledger): Facts {
    Facts(l.ports.raised, l.ports.vaultAsked.Some?, l.ports.credential.Some?, l.lost, ConnectionRefused(l),
          l.relay.deadline.Some?, l.relay.faulted, l.relay.expired, l.relay.ended,
          ChannelCloseFailed(l), ConnectionCloseFailed(l))
  }

  /** How the relay ended, if it began. */
  ghost function RelayVerdict(f: Facts): RelayResult {
    Verdict(f.faulted || f.channelCloseFailed, f.late, f.ended)
  }

  // ---------------------------------------------------------------- the same, told by the calls

  /** Some call is such a call. */
  ghost predicate Any(t: seq<Call>, n: nat, such: Call -> bool)
    requires n <= |t|
  {
    exists i :: 0 <= i < n && such(t[i])
  }

  lemma AnyNext(t: seq<Call>, n: nat, such: Call -> bool)
    requires n < |t|
    ensures Any(t, n + 1, such) <==> Any(t, n, such) || such(t[n])
  {
  }

  predicate AsksVault(c: Call) {
    c.op.ResolveCredential?
  }

  predicate LosesEvent(c: Call) {
    c.op.AppendEvent? && c.reply.raised
  }

  predicate StartsClock(c: Call) {
    c.op.StartClock?
  }

  predicate Dials(c: Call) {
    c.op.ConnectSocket?
  }

  /** The vault answered with something that is not text. */
  predicate FindsUnreadable(c: Call) {
    CredentialFound(c) && Utf8.Decode(c.reply.data).None?
  }

  predicate FailsToCloseChannel(c: Call) {
    c.op.Close? && c.reply.raised && c.op.resource.Channel?
  }

  predicate FailsToCloseConnection(c: Call) {
    c.op.Close? && c.reply.raised && !c.op.resource.Channel?
  }

  /** A step of connecting raised or was refused, or the server did not show the pinned key. */
  ghost predicate FailsToConnect(sha256: Hash, t: seq<Call>, i: nat)
    requires i < |t|
  {
    || ConnectionFault(t[i])
    || (t[i].op.GetServerKey? && !ShowsPinnedKey(sha256, t, t[i].op.transport, i))
  }

  ghost predicate ConnectionFailed(sha256: Hash, t: seq<Call>, n: nat)
    requires n <= |t|
  {
    exists i: nat :: i < n && FailsToConnect(sha256, t, i)
  }

  function KindsLost(t: seq<Call>): set<AuditEventType> {
    set c | c in t && LosesEvent(c) :: c.op.event.eventType
  }

  ghost function OfTrace(sha256: Hash, t: seq<Call>): Facts {
    var n := |t|;
    Facts(Any(t, n, LookupFault), Any(t, n, AsksVault), Any(t, n, CredentialFound), KindsLost(t),
          ConnectionFailed(sha256, t, n) || (Any(t, n, Dials) && Any(t, n, FindsUnreadable)),
          Any(t, n, StartsClock), FaultBefore(t, n), LateBefore(t, n), EndBefore(t, n),
          Any(t, n, FailsToCloseChannel), Any(t, n, FailsToCloseConnection))
  }

  /** The events that were committed, in order. */
  function CommittedEvents(t: seq<Call>): seq<AuditEvent> {
    if t == [] then []
    else
      var n := |t| - 1;
      CommittedEvents(t[..n]) + (if t[n].op.AppendEvent? && !t[n].reply.raised then [t[n].op.event] else [])
  }

  // ---------------------------------------------------------------- the two agree

  ghost predicate PortFacts(l: Ledger, t: seq<Call>, n: nat)
    requires n <= |t|
  {
    && (l.ports.raised <==> Any(t, n, LookupFault))
    && (l.ports.vaultAsked.Some? <==> Any(t, n, AsksVault))
    && (l.ports.credential.Some? <==> Any(t, n, CredentialFound))
    && (l.ports.credential.Some? ==> l.ports.vaultAsked.Some?)
    && (l.ports.credential.Some? && Utf8.Decode(l.ports.credential.value).None? <==> Any(t, n, FindsUnreadable))
  }

  lemma PortFactsAfterCall(sha256: Hash, l: Ledger, t: seq<Call>, n: nat)
    requires n < |t| && PortFacts(l, t, n) && Permitted(l, t[n].op)
    ensures PortFacts(Advance(sha256, l, n, t[n]), t, n + 1)
  {
    hide AdvanceRelay, AdvanceLink, NextOpen, LookupFault, Any, Utf8.Decode, Cleared, Relaying, MayMove;
    AnyNext(t, n, LookupFault);
    AnyNext(t, n, AsksVault);
    AnyNext(t, n, CredentialFound);
    AnyNext(t, n, FindsUnreadable);
  }

  ghost predicate LinkFacts(sha256: Hash, l: Ledger, t: seq<Call>, n: nat)
    requires n <= |t|
  {
    && (l.link.dialled.Some? <==> Any(t, n, Dials))
    && (l.link.failed <==> ConnectionFailed(sha256, t, n))
  }

  lemma LinkFactsAfterCall(sha256: Hash, l: Ledger, t: seq<Call>, n: nat)
    requires n < |t| && LinkFacts(sha256, l, t, n) && PinsMean(l.link.pins, t, n)
    ensures LinkFacts(sha256, Advance(sha256, l, n, t[n]), t, n + 1)
  {
    hide AdvanceRelay, AdvancePorts, NextPins, NextKeyMatched, NextAuthenticated, NextOpen, Permitted, PinsMean;
    hide Any, ConnectionFault, KeyShownMatches, ShowsPinnedKey;
    AnyNext(t, n, Dials);
    ShownKeyIsPinned(sha256, l.link, t, n);
    assert ConnectionFailed(sha256, t, n + 1) <==>
      ConnectionFailed(sha256, t, n) || FailsToConnect(sha256, t, n);
  }

  ghost predicate CloseFacts(l: Ledger, t: seq<Call>, n: nat)
    requires n <= |t|
  {
    && (ChannelCloseFailed(l) <==> Any(t, n, FailsToCloseChannel))
    && (ConnectionCloseFailed(l) <==> Any(t, n, FailsToCloseConnection))
    && (l.relay.deadline.Some? <==> Any(t, n, StartsClock))
  }

  lemma CloseFactsAfterCall(sha256: Hash, l: Ledger, t: seq<Call>, n: nat)
    requires n < |t| && CloseFacts(l, t, n)
    ensures CloseFacts(Advance(sha256, l, n, t[n]), t, n + 1)
  {
    hide AdvanceRelay, AdvancePorts, AdvanceLink, NextOpen, Permitted, Any;
    var m, c := Advance(sha256, l, n, t[n]), t[n];
    AnyNext(t, n, FailsToCloseChannel);
    AnyNext(t, n, FailsToCloseConnection);
    AnyNext(t, n, StartsClock);
    FailuresAfterCall(l, m, c);
    if c.op.StartClock? {
      ClockStarts(l.relay, c);
    } else {
      StartStays(l.relay, c);
    }
  }

  lemma ClockStarts(r: RelayLedger, c: Call)
    requires c.op.StartClock?
    ensures AdvanceRelay(r, c).deadline.Some?
  {
  }

  lemma FailuresAfterCall(l: Ledger, m: Ledger, c: Call)
    requires m.closeFailures ==
             if c.op.Close? && c.reply.raised then l.closeFailures + {c.op.resource} else l.closeFailures
    ensures ChannelCloseFailed(m) <==> ChannelCloseFailed(l) || FailsToCloseChannel(c)
    ensures ConnectionCloseFailed(m) <==> ConnectionCloseFailed(l) || FailsToCloseConnection(c)
  {
    assert forall r :: r in l.closeFailures ==> r in m.closeFailures;
    if FailsToCloseChannel(c) || FailsToCloseConnection(c) {
      assert c.op.resource in m.closeFailures;
    }
  }

  ghost predicate LogFacts(l: Ledger, t: seq<Call>) {
    l.events == CommittedEvents(t) && l.lost == KindsLost(t)
  }

  lemma LogFactsAfterCall(sha256: Hash, l: Ledger, t: seq<Call>, n: nat)
    requires n < |t| && LogFacts(l, t[..n])
    ensures LogFacts(Advance(sha256, l, n, t[n]), t[..n + 1])
  {
    hide AdvanceRelay, AdvancePorts, AdvanceLink, NextOpen, Permitted, KindsLost;
    assert t[..n + 1][..n] == t[..n];
    KindsLostNext(t, n);
  }

  lemma KindsLostNext(t: seq<Call>, n: nat)
    requires n < |t|
    ensures KindsLost(t[..n + 1]) == KindsLost(t[..n]) + if LosesEvent(t[n]) then {t[n].op.event.eventType} else {}
  {
    assert t[..n + 1] == t[..n] + [t[n]];
    assert forall c :: c in t[..n + 1] <==> c in t[..n] || c == t[n];
  }

  lemma {:induction false} FactsAlwaysAgree(sha256: Hash, t: seq<Call>, n: nat)
    requires n <= |t| && At(sha256, t, n).safe
    ensures var l := At(sha256, t, n);
            PortFacts(l, t, n) && LinkFacts(sha256, l, t, n) && CloseFacts(l, t, n) && LogFacts(l, t[..n])
  {
    hide Fold, Advance, Permitted, PortFacts, LinkFacts, CloseFacts, LogFacts, PinsMean, LoginsMean;
    if n == 0 {
      EmptyAtStart(sha256, t);
      NothingHappened(sha256, t);
    } else {
      var l := At(sha256, t, n - 1);
      SafeBefore(sha256, t, n - 1, n);
      FactsAlwaysAgree(sha256, t, n - 1);
      AtNext(sha256, t, n - 1);
      LoginsAlwaysMean(sha256, t, n - 1);
      PortFactsAfterCall(sha256, l, t, n - 1);
      LinkFactsAfterCall(sha256, l, t, n - 1);
      CloseFactsAfterCall(sha256, l, t, n - 1);
      LogFactsAfterCall(sha256, l, t, n - 1);
    }
  }

  lemma NothingHappened(sha256: Hash, t: seq<Call>)
    ensures PortFacts(EMPTY_LEDGER, t, 0) && LinkFacts(sha256, EMPTY_LEDGER, t, 0)
    ensures CloseFacts(EMPTY_LEDGER, t, 0) && LogFacts(EMPTY_LEDGER, t[..0])
  {
  }

  /** On a safe run the ledger and the calls tell the same facts, and the same committed events. */
  lemma LedgerTellsTheTrace(sha256: Hash, t: seq<Call>)
    requires Fold(sha256, t).safe
    ensures OfLedger(Fold(sha256, t)) == OfTrace(sha256, t)
    ensures Fold(sha256, t).events == CommittedEvents(t)
  {
    hide Fold, Any, ConnectionFailed, FaultBefore, LateBefore, EndBefore, KindsLost, Utf8.Decode;
    hide ChannelCloseFailed, ConnectionCloseFailed, ChannelUnread, TerminalUnread, DeadlineSet;
    assert t[..|t|] == t;
    FactsAlwaysAgree(sha256, t, |t|);
    StopsAlwaysMean(sha256, t, |t|);
    ClockAlwaysMeans(sha256, t, |t|);
  }
}
