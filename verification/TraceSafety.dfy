/**
  * What a safe ledger means: orderings and counts stated over the recorded calls alone.
  */
module TraceSafety {
  import opened Basics
  import opened AuditEvents
  import opened Effects
  import Fingerprint
  import Utf8

  type Hash = Fingerprint.HashFunction

  /** The ledger after the first `i` calls. */
  ghost function At(sha256: Hash, t: seq<Call>, i: nat): Ledger
    requires i <= |t|
  {
    Fold(sha256, t[..i])
  }

  lemma AtNext(sha256: Hash, t: seq<Call>, i: nat)
    requires i < |t|
    ensures At(sha256, t, i + 1) == Advance(sha256, At(sha256, t, i), i, t[i])
  {
    hide Advance;
    assert t[..i + 1][..i] == t[..i];
  }

  lemma {:induction false} SafeBefore(sha256: Hash, t: seq<Call>, i: nat, n: nat)
    requires i <= n <= |t| && At(sha256, t, n).safe
    ensures At(sha256, t, i).safe
    ensures i < n ==> Permitted(At(sha256, t, i), t[i].op)
    decreases n - i
  {
    hide Permitted, AdvanceRelay, Fold;
    if i < n {
      SafeBefore(sha256, t, i + 1, n);
      AtNext(sha256, t, i);
    }
  }

  // ---------------------------------------------------------------- exactly-once release

  function CloseAttempts(t: seq<Call>, r: Resource, n: nat): nat
    requires n <= |t|
  {
    if n == 0 then 0
    else CloseAttempts(t, r, n - 1) + (if t[n - 1].op == Close(r) then 1 else 0)
  }

  /** Some call among the first `n` returned this resource. */
  ghost predicate ObtainedBefore(t: seq<Call>, r: Resource, n: nat)
    requires n <= |t|
  {
    r.id < n && Obtained(r.id, t[r.id]) == Some(r)
  }

  /** Every socket, transport and raw channel obtained gets one close attempt, and nothing else gets any. */
  ghost predicate ReleasedExactlyOnce(t: seq<Call>) {
    forall r :: CloseAttempts(t, r, |t|) == if ObtainedBefore(t, r, |t|) then 1 else 0
  }

  ghost predicate CountsMatch(l: Ledger, t: seq<Call>, n: nat)
    requires n <= |t|
  {
    forall r :: && (r in l.open ==> ObtainedBefore(t, r, n))
                && (ObtainedBefore(t, r, n) ==> CloseAttempts(t, r, n) == if r in l.open then 0 else 1)
                && (!ObtainedBefore(t, r, n) ==> CloseAttempts(t, r, n) == 0)
  }

  lemma EmptyAtStart(sha256: Hash, t: seq<Call>)
    ensures At(sha256, t, 0) == EMPTY_LEDGER
    ensures At(sha256, t, 0).open == {}
  {
  }

  /** How one permitted call changes the set of open resources. */
  lemma OpenAfterCall(sha256: Hash, l: Ledger, n: nat, c: Call)
    requires Permitted(l, c.op)
    ensures Obtained(n, c).Some? ==> Advance(sha256, l, n, c).open == l.open + {Obtained(n, c).value} && !c.op.Close?
    ensures c.op.Close? ==> c.op.resource in l.open && Advance(sha256, l, n, c).open == l.open - {c.op.resource}
    ensures Obtained(n, c).None? && !c.op.Close? ==> Advance(sha256, l, n, c).open == l.open
  {
    hide AdvanceRelay, AdvancePorts, AdvanceLink;
    assert Advance(sha256, l, n, c).open == NextOpen(l.open, n, c);
  }

  lemma CountsMatchAtStart(sha256: Hash, t: seq<Call>)
    ensures CountsMatch(At(sha256, t, 0), t, 0)
  {
    hide Fold;
    EmptyAtStart(sha256, t);
    forall r
      ensures r !in At(sha256, t, 0).open && !ObtainedBefore(t, r, 0) && CloseAttempts(t, r, 0) == 0
    {
    }
  }

  lemma {:induction false} CountsAlwaysMatch(sha256: Hash, t: seq<Call>, n: nat)
    requires n <= |t| && At(sha256, t, n).safe
    ensures CountsMatch(At(sha256, t, n), t, n)
  {
    hide Permitted, Advance, AdvanceRelay, Fold;
    if n == 0 {
      CountsMatchAtStart(sha256, t);
    } else {
      var l, c := At(sha256, t, n - 1), t[n - 1];
      SafeBefore(sha256, t, n - 1, n);
      CountsAlwaysMatch(sha256, t, n - 1);
      OpenAfterCall(sha256, l, n - 1, c);
      AtNext(sha256, t, n - 1);
    }
  }

  /** A safe run that leaves nothing open released everything exactly once. */
  lemma SafeAndEmptyReleasesOnce(sha256: Hash, t: seq<Call>)
    requires Fold(sha256, t).safe && Fold(sha256, t).open == {}
    ensures ReleasedExactlyOnce(t)
  {
    hide Fold;
    assert t[..|t|] == t;
    CountsAlwaysMatch(sha256, t, |t|);
  }

  // ---------------------------------------------------------------- who did what before

  ghost predicate LoggedBefore(t: seq<Call>, kind: AuditEventType, n: nat)
    requires n <= |t|
  {
    exists j :: 0 <= j < n && t[j].op.AppendEvent? && !t[j].reply.raised && t[j].op.event.eventType == kind
  }

  /** The vault answered with this credential. */
  ghost predicate CredentialBefore(t: seq<Call>, credential: Bytes, n: nat)
    requires n <= |t|
  {
    exists j :: 0 <= j < n && CredentialFound(t[j]) && t[j].reply.data == credential
  }

  ghost predicate AskedBefore(t: seq<Call>, op: Operation, n: nat)
    requires n <= |t|
  {
    exists j :: 0 <= j < n && t[j].op == op
  }

  /** What the ledger knows about the ports, read off the calls. */
  ghost predicate PortsMean(l: Ledger, t: seq<Call>, n: nat)
    requires n <= |t|
  {
    && (l.ports.credential.Some? ==> CredentialBefore(t, l.ports.credential.value, n))
    && (l.ports.policiesRead ==> AskedBefore(t, ReadPolicies, n))
    && (l.ports.targetRead ==> AskedBefore(t, ReadTarget, n))
    && (l.ports.accountsRead ==> AskedBefore(t, ReadAccounts, n))
  }

  ghost predicate EventsMean(l: Ledger, t: seq<Call>, n: nat)
    requires n <= |t|
  {
    forall k :: Committed(l.events, k) ==> LoggedBefore(t, k, n)
  }

  lemma PortsAfterCall(sha256: Hash, t: seq<Call>, l: Ledger, n: nat)
    requires n < |t| && PortsMean(l, t, n)
    ensures PortsMean(Advance(sha256, l, n, t[n]), t, n + 1)
  {
    hide AdvanceRelay, AdvanceLink, NextOpen, Permitted;
    var c := t[n];
    assert c.op.ReadPolicies? ==> t[n].op == ReadPolicies;
    assert c.op.ReadTarget? ==> t[n].op == ReadTarget;
    assert c.op.ReadAccounts? ==> t[n].op == ReadAccounts;
  }

  lemma CommittedAfterCall(t: seq<Call>, events: seq<AuditEvent>, n: nat, k: AuditEventType)
    requires n < |t|
    requires Committed(events, k) ==> LoggedBefore(t, k, n)
    requires Committed(if t[n].op.AppendEvent? && !t[n].reply.raised then events + [t[n].op.event] else events, k)
    ensures LoggedBefore(t, k, n + 1)
  {
    var added := if t[n].op.AppendEvent? && !t[n].reply.raised then [t[n].op.event] else [];
    assert events + [] == events;
    var e :| e in events + added && e.eventType == k;
    if e in events {
      assert Committed(events, k);
    } else {
      assert t[n].op.AppendEvent? && !t[n].reply.raised && t[n].op.event.eventType == k;
    }
  }

  lemma EventsAfterCall(sha256: Hash, t: seq<Call>, l: Ledger, n: nat)
    requires n < |t| && EventsMean(l, t, n)
    ensures EventsMean(Advance(sha256, l, n, t[n]), t, n + 1)
  {
    hide AdvanceRelay, AdvanceLink, AdvancePorts, NextOpen, NextStamps, Permitted, Committed, LoggedBefore;
    var m := Advance(sha256, l, n, t[n]);
    forall k | Committed(m.events, k)
      ensures LoggedBefore(t, k, n + 1)
    {
      CommittedAfterCall(t, l.events, n, k);
    }
  }

  lemma {:induction false} PortsAlwaysMean(sha256: Hash, t: seq<Call>, n: nat)
    requires n <= |t|
    ensures PortsMean(At(sha256, t, n), t, n) && EventsMean(At(sha256, t, n), t, n)
  {
    hide Permitted, Advance, Fold;
    if n == 0 {
      EmptyAtStart(sha256, t);
    } else {
      PortsAlwaysMean(sha256, t, n - 1);
      AtNext(sha256, t, n - 1);
      PortsAfterCall(sha256, t, At(sha256, t, n - 1), n - 1);
      EventsAfterCall(sha256, t, At(sha256, t, n - 1), n - 1);
    }
  }

  // ---------------------------------------------------------------- ids and times

  /** Call `i` took the first id. */
  ghost predicate FirstId(t: seq<Call>, i: nat, n: nat)
    requires n <= |t|
  {
    i < n && t[i].op.NewId? && forall j :: 0 <= j < i ==> !t[j].op.NewId?
  }

  /** Call `i` took the newest id, and no event has used it yet. */
  ghost predicate NewestId(t: seq<Call>, i: nat, n: nat)
    requires n <= |t|
  {
    i < n && t[i].op.NewId? && forall j :: i < j < n ==> !t[j].op.NewId? && !t[j].op.AppendEvent?
  }

  /** Call `k` was the wall clock's first reading. */
  ghost predicate FirstWall(t: seq<Call>, k: nat, n: nat)
    requires n <= |t|
  {
    k < n && t[k].op.WallClock? && forall j :: 0 <= j < k ==> !t[j].op.WallClock?
  }

  /** Call `k` was its last reading. */
  ghost predicate LastWall(t: seq<Call>, k: nat, n: nat)
    requires n <= |t|
  {
    k < n && t[k].op.WallClock? && forall j :: k < j < n ==> !t[j].op.WallClock?
  }

  /** No append was tried after call `k`. */
  ghost predicate NoAppendSince(t: seq<Call>, k: nat, n: nat)
    requires n <= |t|
  {
    forall j :: k < j < n ==> !t[j].op.AppendEvent?
  }

  ghost predicate FirstsMean(p: StampLedger, t: seq<Call>, n: nat)
    requires n <= |t|
  {
    && (p.firstId.None? ==> forall j :: 0 <= j < n ==> !t[j].op.NewId?)
    && (p.firstId.Some? ==> exists i: nat :: FirstId(t, i, n) && t[i].reply.text == p.firstId.value)
    && (p.firstReading.None? ==> forall j :: 0 <= j < n ==> !t[j].op.WallClock?)
    && (p.firstReading.Some? ==> exists k: nat :: FirstWall(t, k, n) && t[k].reply.number == p.firstReading.value)
  }

  ghost predicate LatestMean(p: StampLedger, t: seq<Call>, n: nat)
    requires n <= |t|
  {
    && (p.newestId.Some? ==> exists i: nat :: NewestId(t, i, n) && t[i].reply.text == p.newestId.value)
    && (p.reading.Some? ==> exists k: nat :: LastWall(t, k, n) && t[k].reply.number == p.reading.value)
    && (p.unspent ==> forall k: nat :: LastWall(t, k, n) ==> NoAppendSince(t, k, n))
    && (p.newestId.Some? ==> forall i: nat, k: nat :: NewestId(t, i, n) && LastWall(t, k, n) ==> (p.afterId <==> i < k))
  }

  lemma FirstsAfterCall(p: StampLedger, t: seq<Call>, n: nat)
    requires n < |t| && FirstsMean(p, t, n)
    ensures FirstsMean(NextStamps(p, t[n]), t, n + 1)
  {
    var c, m := t[n], n + 1;
    assert forall i: nat :: FirstId(t, i, n) ==> FirstId(t, i, m);
    assert forall k: nat :: FirstWall(t, k, n) ==> FirstWall(t, k, m);
    assert c.op.NewId? && p.firstId.None? ==> FirstId(t, n, m);
    assert c.op.WallClock? && p.firstReading.None? ==> FirstWall(t, n, m);
  }

  lemma LatestAfterCall(p: StampLedger, t: seq<Call>, n: nat)
    requires n < |t| && LatestMean(p, t, n)
    ensures LatestMean(NextStamps(p, t[n]), t, n + 1)
  {
    var c, m := t[n], n + 1;
    assert !c.op.NewId? && !c.op.AppendEvent? ==> forall i: nat :: NewestId(t, i, n) <==> NewestId(t, i, m);
    assert !c.op.WallClock? ==> forall k: nat :: LastWall(t, k, n) <==> LastWall(t, k, m);
    assert c.op.NewId? ==> NewestId(t, n, m);
    assert c.op.WallClock? ==> LastWall(t, n, m);
  }

  lemma StampsAt(sha256: Hash, t: seq<Call>, i: nat)
    requires i < |t|
    ensures At(sha256, t, i + 1).stamps == NextStamps(At(sha256, t, i).stamps, t[i])
  {
    hide Fold, AdvanceLink, AdvanceRelay, AdvancePorts, NextOpen, NextStamps, Permitted;
    AtNext(sha256, t, i);
  }

  lemma {:induction false} StampsAlwaysMean(sha256: Hash, t: seq<Call>, n: nat)
    requires n <= |t|
    ensures FirstsMean(At(sha256, t, n).stamps, t, n) && LatestMean(At(sha256, t, n).stamps, t, n)
  {
    hide Fold, NextStamps, FirstsMean, LatestMean;
    if n == 0 {
      EmptyAtStart(sha256, t);
      NothingStamped(t);
    } else {
      StampsAlwaysMean(sha256, t, n - 1);
      StampsAt(sha256, t, n - 1);
      FirstsAfterCall(At(sha256, t, n - 1).stamps, t, n - 1);
      LatestAfterCall(At(sha256, t, n - 1).stamps, t, n - 1);
    }
  }

  lemma NothingStamped(t: seq<Call>)
    ensures FirstsMean(NO_STAMPS, t, 0) && LatestMean(NO_STAMPS, t, 0)
  {
  }

  // ---------------------------------------------------------------- what happens once at most

  /** The ledger holds what each call asked for, dialled or sent. */
  ghost predicate OnceMeans(l: Ledger, t: seq<Call>, n: nat)
    requires n <= |t|
  {
    forall j :: 0 <= j < n ==> RecordedIn(l, t[j])
  }

  ghost predicate RecordedIn(l: Ledger, c: Call) {
    match c.op
    case ReadPolicies => l.ports.policiesRead
    case ReadTarget => l.ports.targetRead
    case ReadAccounts => l.ports.accountsRead
    case ResolveCredential(reference) =>
      l.ports.vaultAsked == Some(reference) && (CredentialFound(c) ==> l.ports.credential == Some(c.reply.data))
    case ConnectSocket(target) => l.link.dialled == Some(target)
    case AuthPassword(_, username, password) => l.link.login == Some((username, password))
    case Receive(_, max) => max in l.relay.asked
    case ReadInput(max) => max in l.relay.asked
    case StartClock(duration) => l.relay.start == c.reply.number && l.relay.deadline == Some(c.reply.number + duration)
    case _ => true
  }

  lemma StartStays(r: RelayLedger, c: Call)
    requires !c.op.StartClock?
    ensures AdvanceRelay(r, c).start == r.start && AdvanceRelay(r, c).deadline == r.deadline
  {
    hide AdvanceClock, RelayFault, RelayEnd, ReceivedBy, WrittenBy, ReadLocallyBy, SentBy;
  }

  lemma AskedStays(r: RelayLedger, c: Call)
    ensures r.asked <= AdvanceRelay(r, c).asked
  {
    hide AdvanceClock, RelayFault, RelayEnd, ReceivedBy, WrittenBy, ReadLocallyBy, SentBy;
  }

  lemma RecordStays(sha256: Hash, l: Ledger, n: nat, c: Call, earlier: Call)
    requires Permitted(l, c.op) && RecordedIn(l, earlier)
    ensures RecordedIn(Advance(sha256, l, n, c), earlier)
  {
    hide Cleared, Relaying, MayMove, Served, Balanced, Committed, Utf8.Decode, AdvanceRelay;
    hide NextStamps, NextPins, NextKeyMatched, NextAuthenticated, NextOpen, NextFailed;
    AskedStays(l.relay, c);
    if !c.op.StartClock? {
      StartStays(l.relay, c);
    }
  }

  lemma RecordMade(sha256: Hash, l: Ledger, n: nat, c: Call)
    ensures RecordedIn(Advance(sha256, l, n, c), c)
  {
    hide Permitted, NextPins, NextKeyMatched, NextAuthenticated, NextOpen;
  }

  lemma {:induction false} OnceAlwaysMeans(sha256: Hash, t: seq<Call>, n: nat)
    requires n <= |t| && At(sha256, t, n).safe
    ensures OnceMeans(At(sha256, t, n), t, n)
  {
    hide Permitted, Advance, Fold, RecordedIn;
    if n > 0 {
      var l := At(sha256, t, n - 1);
      SafeBefore(sha256, t, n - 1, n);
      OnceAlwaysMeans(sha256, t, n - 1);
      AtNext(sha256, t, n - 1);
      RecordMade(sha256, l, n - 1, t[n - 1]);
      forall j | 0 <= j < n - 1
        ensures RecordedIn(At(sha256, t, n), t[j])
      {
        RecordStays(sha256, l, n - 1, t[n - 1], t[j]);
      }
    }
  }

  // ---------------------------------------------------------------- pins, keys and passwords

  /** The socket came from a connection to a target with this pin. */
  ghost predicate SocketFor(t: seq<Call>, s: nat, pin: string, n: nat)
    requires n <= |t|
  {
    && ObtainedBefore(t, Socket(s), n)
    && t[s].op.target.expectedHostKey == pin
  }

  /** The transport was made on such a socket. */
  ghost predicate TransportFor(t: seq<Call>, tr: nat, pin: string, n: nat)
    requires n <= |t|
  {
    && ObtainedBefore(t, Transport(tr), n)
    && SocketFor(t, t[tr].op.socket, pin, tr)
  }

  /** This call shows, on this very transport, a key that matches the pin of the target dialled. */
  ghost predicate ShowsPinnedKey(sha256: Hash, t: seq<Call>, tr: nat, j: nat)
    requires j < |t|
  {
    && t[j].op == GetServerKey(tr) && !t[j].reply.raised
    && exists pin :: TransportFor(t, tr, pin, j) && Fingerprint.PinMatches(sha256, pin, t[j].reply.data)
  }

  ghost predicate KeyMatchedBefore(sha256: Hash, t: seq<Call>, tr: nat, n: nat)
    requires n <= |t|
  {
    exists j: nat :: j < n && ShowsPinnedKey(sha256, t, tr, j)
  }

  ghost predicate PasswordSentBefore(t: seq<Call>, tr: nat, n: nat)
    requires n <= |t|
  {
    exists j :: 0 <= j < n && t[j].op.AuthPassword? && t[j].op.transport == tr
  }

  /** The server said that the password sent on this transport was good. */
  ghost predicate AuthenticatedBefore(t: seq<Call>, tr: nat, n: nat)
    requires n <= |t|
  {
    exists j :: && 0 <= j < n && t[j].op == IsAuthenticated(tr) && !t[j].reply.raised && t[j].reply.flag
                && PasswordSentBefore(t, tr, j)
  }

  ghost predicate PtyBefore(t: seq<Call>, ch: nat, n: nat)
    requires n <= |t|
  {
    exists j :: 0 <= j < n && t[j].op == GetPty(ch) && !t[j].reply.raised
  }

  ghost predicate ShellBefore(t: seq<Call>, ch: nat, n: nat)
    requires n <= |t|
  {
    exists j :: 0 <= j < n && t[j].op == InvokeShell(ch) && !t[j].reply.raised
  }

  /** The ledger's pins are exactly those of the sockets and transports obtained. */
  ghost predicate PinsMean(pins: map<Resource, string>, t: seq<Call>, n: nat)
    requires n <= |t|
  {
    && (forall s: nat, pin :: SocketFor(t, s, pin, n) <==> Socket(s) in pins && pins[Socket(s)] == pin)
    && (forall tr: nat, pin :: TransportFor(t, tr, pin, n) <==> Transport(tr) in pins && pins[Transport(tr)] == pin)
  }

  ghost predicate LoginsMean(sha256: Hash, k: LinkLedger, t: seq<Call>, n: nat)
    requires n <= |t|
  {
    && (forall tr :: tr in k.keyMatched ==> KeyMatchedBefore(sha256, t, tr, n))
    && (forall tr :: tr in k.passwordSent ==> PasswordSentBefore(t, tr, n))
    && (forall tr :: tr in k.authenticated ==> AuthenticatedBefore(t, tr, n))
    && (forall ch :: ch in k.ptys ==> PtyBefore(t, ch, n))
    && (forall ch :: ch in k.shells ==> ShellBefore(t, ch, n))
  }

  lemma SocketForNext(t: seq<Call>, s: nat, pin: string, n: nat)
    requires n < |t|
    ensures SocketFor(t, s, pin, n + 1) <==>
            if s == n then t[n].op.ConnectSocket? && !t[n].reply.raised && t[n].op.target.expectedHostKey == pin
            else SocketFor(t, s, pin, n)
  {
  }

  lemma TransportForNext(t: seq<Call>, tr: nat, pin: string, n: nat)
    requires n < |t|
    ensures TransportFor(t, tr, pin, n + 1) <==>
            if tr == n then t[n].op.CreateTransport? && !t[n].reply.raised && SocketFor(t, t[n].op.socket, pin, n)
            else TransportFor(t, tr, pin, n)
  {
  }

  lemma PinsAfterCallMean(k: LinkLedger, t: seq<Call>, n: nat)
    requires n < |t| && PinsMean(k.pins, t, n)
    ensures PinsMean(NextPins(k, n, t[n]), t, n + 1)
  {
    hide SocketFor, TransportFor;
    var pins, m := NextPins(k, n, t[n]), n + 1;
    NewPlace(k.pins, t, n);
    forall s: nat, pin
      ensures SocketFor(t, s, pin, m) <==> Socket(s) in pins && pins[Socket(s)] == pin
    {
      SocketForNext(t, s, pin, n);
    }
    forall tr: nat, pin
      ensures TransportFor(t, tr, pin, m) <==> Transport(tr) in pins && pins[Transport(tr)] == pin
    {
      TransportForNext(t, tr, pin, n);
    }
  }

  lemma NewPlace(pins: map<Resource, string>, t: seq<Call>, n: nat)
    requires n < |t| && PinsMean(pins, t, n)
    ensures Socket(n) !in pins && Transport(n) !in pins
  {
    var socketPin := if Socket(n) in pins then pins[Socket(n)] else "";
    var transportPin := if Transport(n) in pins then pins[Transport(n)] else "";
    assert !SocketFor(t, n, socketPin, n) && !TransportFor(t, n, transportPin, n);
  }

  lemma ShownKeyIsPinned(sha256: Hash, k: LinkLedger, t: seq<Call>, n: nat)
    requires n < |t| && PinsMean(k.pins, t, n)
    ensures KeyShownMatches(sha256, k, t[n]) <==>
            t[n].op.GetServerKey? && ShowsPinnedKey(sha256, t, t[n].op.transport, n)
  {
    hide Fingerprint.PinMatches, SocketFor, TransportFor;
  }

  lemma LoginsAfterCallMean(sha256: Hash, k: LinkLedger, t: seq<Call>, n: nat)
    requires n < |t| && PinsMean(k.pins, t, n) && LoginsMean(sha256, k, t, n)
    ensures LoginsMean(sha256, AdvanceLink(sha256, k, n, t[n]), t, n + 1)
  {
    hide Fingerprint.PinMatches, NextPins, PinsMean, NextFailed, ShowsPinnedKey, KeyShownMatches;
    var m, c := AdvanceLink(sha256, k, n, t[n]), t[n];
    ShownKeyIsPinned(sha256, k, t, n);
    forall tr | tr in m.keyMatched
      ensures KeyMatchedBefore(sha256, t, tr, n + 1)
    {
      if tr !in k.keyMatched {
        assert c.op.GetServerKey? && c.op.transport == tr && ShowsPinnedKey(sha256, t, tr, n);
      }
    }
    forall tr | tr in m.authenticated
      ensures AuthenticatedBefore(t, tr, n + 1)
    {
      if tr !in k.authenticated {
        assert c.op == IsAuthenticated(tr) && PasswordSentBefore(t, tr, n);
      }
    }
    forall tr | tr in m.passwordSent
      ensures PasswordSentBefore(t, tr, n + 1)
    {
      assert tr in k.passwordSent || (t[n].op.AuthPassword? && t[n].op.transport == tr);
    }
    forall ch | ch in m.ptys
      ensures PtyBefore(t, ch, n + 1)
    {
      assert ch in k.ptys || (t[n].op == GetPty(ch) && !t[n].reply.raised);
    }
    forall ch | ch in m.shells
      ensures ShellBefore(t, ch, n + 1)
    {
      assert ch in k.shells || (t[n].op == InvokeShell(ch) && !t[n].reply.raised);
    }
  }

  lemma LinkAt(sha256: Hash, t: seq<Call>, i: nat)
    requires i < |t|
    ensures At(sha256, t, i + 1).link == AdvanceLink(sha256, At(sha256, t, i).link, i, t[i])
  {
    hide Fold, AdvanceLink, AdvanceRelay, AdvancePorts, NextOpen, Permitted;
    AtNext(sha256, t, i);
  }

  lemma NoPinsYet(t: seq<Call>)
    ensures PinsMean(map[], t, 0)
  {
  }

  lemma {:induction false} LoginsAlwaysMean(sha256: Hash, t: seq<Call>, n: nat)
    requires n <= |t|
    ensures PinsMean(At(sha256, t, n).link.pins, t, n) && LoginsMean(sha256, At(sha256, t, n).link, t, n)
  {
    hide Fold, PinsMean, NextPins, NextKeyMatched, NextAuthenticated, NextFailed;
    if n == 0 {
      EmptyAtStart(sha256, t);
      NoPinsYet(t);
    } else {
      var k := At(sha256, t, n - 1).link;
      LoginsAlwaysMean(sha256, t, n - 1);
      LinkAt(sha256, t, n - 1);
      PinsAfterCallMean(k, t, n - 1);
      LoginsAfterCallMean(sha256, k, t, n - 1);
    }
  }

  // ---------------------------------------------------------------- the deadline

  /** The relay's clock was started, and this is when it runs out. */
  ghost predicate DeadlineSet(t: seq<Call>, d: int, n: nat)
    requires n <= |t|
  {
    exists j :: 0 <= j < n && t[j].op.StartClock? && d == t[j].reply.number + t[j].op.duration
  }

  /** A reading at or past the deadline. */
  ghost predicate LateReading(t: seq<Call>, j: nat)
    requires j < |t|
  {
    t[j].op == ReadClock && exists d :: DeadlineSet(t, d, j) && d <= t[j].reply.number
  }

  ghost predicate LateBefore(t: seq<Call>, n: nat)
    requires n <= |t|
  {
    exists j: nat :: j < n && LateReading(t, j)
  }

  /** `w` is the last wait so far. */
  ghost predicate LastWait(t: seq<Call>, w: nat, n: nat)
    requires n <= |t|
  {
    w < n && t[w].op.Select? && forall j :: w < j < n ==> !t[j].op.Select?
  }

  /** A reading after the last wait was before the deadline. */
  ghost predicate ReadInTime(t: seq<Call>, d: int, n: nat)
    requires n <= |t|
  {
    exists w: nat, r :: LastWait(t, w, n) && w < r < n && t[r].op == ReadClock && t[r].reply.number < d
  }

  ghost predicate ClockMeans(r: RelayLedger, t: seq<Call>, n: nat)
    requires n <= |t|
  {
    && (forall d :: DeadlineSet(t, d, n) <==> r.deadline == Some(d))
    && (r.expired <==> LateBefore(t, n))
    && (r.waiting ==> exists w: nat :: LastWait(t, w, n))
    && (r.inTime ==> r.deadline.Some? && ReadInTime(t, r.deadline.value, n))
    && (r.deadline.None? ==> !r.waiting && !r.inTime && forall j :: 0 <= j < n ==> !t[j].op.Select?)
  }

  /** The fields that the clock's meaning rests on. */
  ghost predicate SameReadings(r: RelayLedger, m: RelayLedger) {
    r.deadline == m.deadline && r.expired == m.expired && r.waiting == m.waiting && r.inTime == m.inTime
  }

  lemma ClockFields(r: RelayLedger, c: Call)
    ensures SameReadings(AdvanceRelay(r, c), AdvanceClock(r, c))
  {
    hide AdvanceClock;
  }

  lemma DeadlineAfterCall(l: Ledger, t: seq<Call>, n: nat, d: int)
    requires n < |t| && Permitted(l, t[n].op)
    requires forall e :: DeadlineSet(t, e, n) <==> l.relay.deadline == Some(e)
    ensures DeadlineSet(t, d, n + 1) <==> AdvanceClock(l.relay, t[n]).deadline == Some(d)
  {
    assert DeadlineSet(t, d, n + 1) <==>
      DeadlineSet(t, d, n) || (t[n].op.StartClock? && d == t[n].reply.number + t[n].op.duration);
  }

  lemma LateAfterCall(l: Ledger, t: seq<Call>, n: nat)
    requires n < |t| && ClockMeans(l.relay, t, n)
    ensures AdvanceClock(l.relay, t[n]).expired <==> LateBefore(t, n + 1)
  {
    hide AdvanceClock, DeadlineSet, ReadInTime, LastWait;
    assert LateBefore(t, n + 1) <==> LateBefore(t, n) || LateReading(t, n);
  }

  lemma ClockAfterCall(l: Ledger, t: seq<Call>, n: nat)
    requires n < |t| && ClockMeans(l.relay, t, n) && Permitted(l, t[n].op)
    ensures ClockMeans(AdvanceClock(l.relay, t[n]), t, n + 1)
  {
    hide DeadlineSet, LateBefore;
    var r, m, c := l.relay, AdvanceClock(l.relay, t[n]), t[n];
    forall d
      ensures DeadlineSet(t, d, n + 1) <==> m.deadline == Some(d)
    {
      DeadlineAfterCall(l, t, n, d);
    }
    LateAfterCall(l, t, n);
    if c.op.Select? {
      assert LastWait(t, n, n + 1);
    } else {
      assert forall w: nat :: LastWait(t, w, n) ==> LastWait(t, w, n + 1);
      if r.inTime {
        assert ReadInTime(t, r.deadline.value, n + 1);
      }
      if c.op == ReadClock && r.waiting && m.inTime {
        var w: nat :| LastWait(t, w, n);
        assert LastWait(t, w, n + 1) && t[n].op == ReadClock;
      }
    }
  }

  lemma ClockMeansSame(r: RelayLedger, m: RelayLedger, t: seq<Call>, n: nat)
    requires n <= |t| && SameReadings(r, m) && ClockMeans(m, t, n)
    ensures ClockMeans(r, t, n)
  {
  }

  lemma RelayAt(sha256: Hash, t: seq<Call>, i: nat)
    requires i < |t|
    ensures At(sha256, t, i + 1).relay == AdvanceRelay(At(sha256, t, i).relay, t[i])
  {
    hide Fold, AdvanceLink, AdvanceRelay, AdvancePorts, NextOpen, Permitted;
    AtNext(sha256, t, i);
  }

  lemma {:induction false} ClockAlwaysMeans(sha256: Hash, t: seq<Call>, n: nat)
    requires n <= |t| && At(sha256, t, n).safe
    ensures ClockMeans(At(sha256, t, n).relay, t, n)
  {
    hide Permitted, AdvanceRelay, AdvanceClock, Fold;
    if n == 0 {
      EmptyAtStart(sha256, t);
    } else {
      var l := At(sha256, t, n - 1);
      SafeBefore(sha256, t, n - 1, n);
      ClockAlwaysMeans(sha256, t, n - 1);
      RelayAt(sha256, t, n - 1);
      ClockAfterCall(l, t, n - 1);
      ClockFields(l.relay, t[n - 1]);
      ClockMeansSame(At(sha256, t, n).relay, AdvanceClock(l.relay, t[n - 1]), t, n);
    }
  }

  predicate ReadsClock(op: Operation) {
    op.StartClock? || op.ReadClock?
  }

  /** The clock moves by a tick at least whenever the relay waits. */
  ghost predicate Ticking(t: seq<Call>) {
    forall i, w, j ::
      && 0 <= i < w < j < |t| && ReadsClock(t[i].op) && t[w].op.Select? && ReadsClock(t[j].op)
      ==> t[i].reply.number + 1 <= t[j].reply.number
  }

  /** The last reading, and a wait after it if the relay is waiting. */
  ghost predicate ReadAt(r: RelayLedger, t: seq<Call>, p: nat, n: nat)
    requires n <= |t|
  {
    && p < n && ReadsClock(t[p].op) && t[p].reply.number == r.lastReading
    && (r.waiting ==> exists w :: p < w < n && t[w].op.Select?)
  }

  ghost predicate TicksMean(r: RelayLedger, t: seq<Call>, n: nat)
    requires n <= |t|
  {
    r.steady && (if r.deadline.Some? then exists p: nat :: ReadAt(r, t, p, n) else !r.waiting)
  }

  ghost predicate SameTicks(r: RelayLedger, m: RelayLedger) {
    r.steady == m.steady && r.lastReading == m.lastReading && r.waiting == m.waiting && r.deadline == m.deadline
  }

  lemma TickFields(r: RelayLedger, c: Call)
    ensures SameTicks(AdvanceRelay(r, c), AdvanceClock(r, c))
  {
    hide AdvanceClock, RelayFault, RelayEnd, ReceivedBy, WrittenBy, ReadLocallyBy, SentBy;
  }

  lemma TicksAfterCall(l: Ledger, t: seq<Call>, n: nat)
    requires n < |t| && Ticking(t) && TicksMean(l.relay, t, n) && Permitted(l, t[n].op)
    ensures TicksMean(AdvanceClock(l.relay, t[n]), t, n + 1)
  {
    var r, m := l.relay, AdvanceClock(l.relay, t[n]);
    if t[n].op.StartClock? {
      assert ReadAt(m, t, n, n + 1);
    } else if r.deadline.Some? {
      var p: nat :| ReadAt(r, t, p, n);
      if t[n].op.ReadClock? && r.waiting {
        var w :| p < w < n && t[w].op.Select?;
        assert t[p].reply.number + 1 <= t[n].reply.number;
        assert ReadAt(m, t, n, n + 1);
      } else {
        assert ReadAt(m, t, p, n + 1);
      }
    }
  }

  lemma TicksMeanSame(r: RelayLedger, m: RelayLedger, t: seq<Call>, n: nat)
    requires n <= |t| && SameTicks(r, m) && TicksMean(m, t, n)
    ensures TicksMean(r, t, n)
  {
    if m.deadline.Some? {
      var p: nat :| ReadAt(m, t, p, n);
      assert ReadAt(r, t, p, n);
    }
  }

  /** A ticking clock keeps the ledger's readings steady. */
  lemma {:induction false} TickingIsSteady(sha256: Hash, t: seq<Call>, n: nat)
    requires n <= |t| && At(sha256, t, n).safe && Ticking(t)
    ensures TicksMean(At(sha256, t, n).relay, t, n)
  {
    hide Permitted, AdvanceRelay, AdvanceClock, Fold, Ticking, TicksMean;
    if n == 0 {
      EmptyAtStart(sha256, t);
      NoTicksYet(t);
    } else {
      var l := At(sha256, t, n - 1);
      SafeBefore(sha256, t, n - 1, n);
      TickingIsSteady(sha256, t, n - 1);
      RelayAt(sha256, t, n - 1);
      TicksAfterCall(l, t, n - 1);
      TickFields(l.relay, t[n - 1]);
      TicksMeanSame(At(sha256, t, n).relay, AdvanceClock(l.relay, t[n - 1]), t, n);
    }
  }

  lemma NoTicksYet(t: seq<Call>)
    ensures TicksMean(NO_RELAY, t, 0)
  {
  }

  /** `p` is the last reading of the clock. */
  ghost predicate LastReading(t: seq<Call>, p: nat, n: nat)
    requires n <= |t|
  {
    p < n && ReadsClock(t[p].op) && forall j :: p < j < n ==> !ReadsClock(t[j].op)
  }

  ghost predicate NowMeans(r: RelayLedger, t: seq<Call>, n: nat)
    requires n <= |t|
  {
    r.deadline.Some? ==> exists p: nat :: LastReading(t, p, n) && t[p].reply.number == r.now
  }

  lemma NowFields(r: RelayLedger, c: Call)
    ensures var m := AdvanceRelay(r, c);
            m.now == if c.op.StartClock? || (c.op.ReadClock? && r.deadline.Some?) then c.reply.number else r.now
  {
    hide AdvanceClock, RelayFault, RelayEnd, ReceivedBy, WrittenBy, ReadLocallyBy, SentBy;
  }

  lemma {:induction false} NowAlwaysMeans(sha256: Hash, t: seq<Call>, n: nat)
    requires n <= |t| && At(sha256, t, n).safe
    ensures NowMeans(At(sha256, t, n).relay, t, n)
  {
    hide Fold, AdvanceRelay, Committed;
    if n == 0 {
      EmptyAtStart(sha256, t);
    } else {
      var r := At(sha256, t, n - 1).relay;
      SafeBefore(sha256, t, n - 1, n);
      NowAlwaysMeans(sha256, t, n - 1);
      RelayAt(sha256, t, n - 1);
      NowFields(r, t[n - 1]);
      if ReadsClock(t[n - 1].op) {
        assert LastReading(t, n - 1, n);
      } else if r.deadline.Some? {
        StartStays(r, t[n - 1]);
        var p: nat :| LastReading(t, p, n - 1) && t[p].reply.number == r.now;
        assert LastReading(t, p, n);
      } else {
        StartStays(r, t[n - 1]);
      }
    }
  }

  /** How often the relay waited. */
  function Waits(t: seq<Call>, n: nat): nat
    requires n <= |t|
  {
    if n == 0 then 0 else Waits(t, n - 1) + (if t[n - 1].op.Select? then 1 else 0)
  }

  lemma WaitField(r: RelayLedger, c: Call)
    ensures AdvanceRelay(r, c).waits == r.waits + (if c.op.Select? then 1 else 0)
  {
    hide AdvanceClock, RelayFault, RelayEnd, ReceivedBy, WrittenBy, ReadLocallyBy, SentBy;
  }

  lemma {:induction false} WaitsAlwaysCounted(sha256: Hash, t: seq<Call>, n: nat)
    requires n <= |t|
    ensures At(sha256, t, n).relay.waits == Waits(t, n)
  {
    hide Fold, AdvanceRelay;
    if n == 0 {
      EmptyAtStart(sha256, t);
    } else {
      WaitsAlwaysCounted(sha256, t, n - 1);
      RelayAt(sha256, t, n - 1);
      WaitField(At(sha256, t, n - 1).relay, t[n - 1]);
    }
  }

  // ---------------------------------------------------------------- how the relay stops, and what it must serve

  ghost predicate FaultBefore(t: seq<Call>, n: nat)
    requires n <= |t|
  {
    exists j :: 0 <= j < n && RelayFault(t[j])
  }

  ghost predicate EndBefore(t: seq<Call>, n: nat)
    requires n <= |t|
  {
    exists j :: 0 <= j < n && RelayEnd(t[j])
  }

  /** The last wait found the channel readable, and it was not read since. */
  ghost predicate ChannelUnread(t: seq<Call>, n: nat)
    requires n <= |t|
  {
    exists w: nat :: && LastWait(t, w, n) && !t[w].reply.raised && t[w].reply.flag
                     && forall j :: w < j < n ==> !t[j].op.Receive?
  }

  /** The same of the terminal. */
  ghost predicate TerminalUnread(t: seq<Call>, n: nat)
    requires n <= |t|
  {
    exists w: nat :: && LastWait(t, w, n) && !t[w].reply.raised && t[w].reply.otherFlag
                     && forall j :: w < j < n ==> !t[j].op.ReadInput?
  }

  ghost predicate StopsMean(r: RelayLedger, t: seq<Call>, n: nat)
    requires n <= |t|
  {
    && (r.faulted <==> FaultBefore(t, n))
    && (r.ended <==> EndBefore(t, n))
    && (r.remoteReady <==> ChannelUnread(t, n))
    && (r.localReady <==> TerminalUnread(t, n))
  }

  lemma UnreadAfterCall(t: seq<Call>, n: nat)
    requires n < |t|
    ensures var c := t[n];
            ChannelUnread(t, n + 1) <==>
            if c.op.Select? then !c.reply.raised && c.reply.flag else ChannelUnread(t, n) && !c.op.Receive?
    ensures var c := t[n];
            TerminalUnread(t, n + 1) <==>
            if c.op.Select? then !c.reply.raised && c.reply.otherFlag else TerminalUnread(t, n) && !c.op.ReadInput?
  {
    assert t[n].op.Select? ==> LastWait(t, n, n + 1);
    assert !t[n].op.Select? ==> forall w: nat :: LastWait(t, w, n + 1) <==> LastWait(t, w, n);
    if t[n].op.Select? {
      var m := n + 1;
      forall w: nat | LastWait(t, w, m)
        ensures w == n
      {
      }
    }
  }

  lemma ReadyFields(r: RelayLedger, c: Call)
    ensures var m := AdvanceRelay(r, c);
            && (m.remoteReady <==>
                  if c.op.Select? then !c.reply.raised && c.reply.flag else r.remoteReady && !c.op.Receive?)
            && (m.localReady <==>
                  if c.op.Select? then !c.reply.raised && c.reply.otherFlag else r.localReady && !c.op.ReadInput?)
            && (m.faulted <==> r.faulted || RelayFault(c))
            && (m.ended <==> r.ended || RelayEnd(c))
  {
    hide AdvanceClock, RelayFault, RelayEnd, ReceivedBy, WrittenBy, ReadLocallyBy, SentBy;
  }

  lemma {:induction false} StopsAlwaysMean(sha256: Hash, t: seq<Call>, n: nat)
    requires n <= |t|
    ensures StopsMean(At(sha256, t, n).relay, t, n)
  {
    hide Fold, AdvanceRelay, ChannelUnread, TerminalUnread, RelayFault, RelayEnd;
    if n == 0 {
      EmptyAtStart(sha256, t);
      NothingUnread(t);
    } else {
      StopsAlwaysMean(sha256, t, n - 1);
      RelayAt(sha256, t, n - 1);
      ReadyFields(At(sha256, t, n - 1).relay, t[n - 1]);
      UnreadAfterCall(t, n - 1);
      assert FaultBefore(t, n) <==> FaultBefore(t, n - 1) || RelayFault(t[n - 1]);
      assert EndBefore(t, n) <==> EndBefore(t, n - 1) || RelayEnd(t[n - 1]);
    }
  }

  lemma NothingUnread(t: seq<Call>)
    ensures !ChannelUnread(t, 0) && !TerminalUnread(t, 0)
  {
  }

  // ---------------------------------------------------------------- bytes

  /**
    * What a call moved is what it was answered: a read the whole answer, unless it is longer than was
    * asked for; a write the number of bytes taken; a send everything, unless it raised.
    */
  lemma CallsMoveTheirAnswers(c: Call)
    ensures c.op.Receive? && !c.reply.raised && |c.reply.data| <= c.op.max ==> ReceivedBy(c) == c.reply.data
    ensures c.op.ReadInput? && !c.reply.raised && |c.reply.data| <= c.op.max ==> ReadLocallyBy(c) == c.reply.data
    ensures c.op.WriteOutput? && !c.reply.raised && 0 <= c.reply.number <= |c.op.data| ==>
              WrittenBy(c) == c.op.data[..c.reply.number]
    ensures c.op.Send? && !c.reply.raised ==> SentBy(c) == c.op.data
  {
  }

  /** What the first `n` calls moved. */
  function Moved(piece: Call -> Bytes, t: seq<Call>, n: nat): Bytes
    requires n <= |t|
  {
    if n == 0 then [] else Moved(piece, t, n - 1) + piece(t[n - 1])
  }

  ghost predicate BytesMean(r: RelayLedger, t: seq<Call>, n: nat)
    requires n <= |t|
  {
    && r.received == Moved(ReceivedBy, t, n) && r.written == Moved(WrittenBy, t, n)
    && r.readLocally == Moved(ReadLocallyBy, t, n) && r.sent == Moved(SentBy, t, n)
  }

  lemma ByteFields(r: RelayLedger, c: Call)
    ensures var m := AdvanceRelay(r, c);
            && m.received == r.received + ReceivedBy(c) && m.written == r.written + WrittenBy(c)
            && m.readLocally == r.readLocally + ReadLocallyBy(c) && m.sent == r.sent + SentBy(c)
  {
    hide AdvanceClock, RelayFault, RelayEnd, ReceivedBy, WrittenBy, ReadLocallyBy, SentBy;
  }

  lemma {:induction false} BytesAlwaysMean(sha256: Hash, t: seq<Call>, n: nat)
    requires n <= |t|
    ensures BytesMean(At(sha256, t, n).relay, t, n)
  {
    hide Fold, AdvanceRelay, ReceivedBy, WrittenBy, ReadLocallyBy, SentBy;
    if n == 0 {
      EmptyAtStart(sha256, t);
    } else {
      BytesAlwaysMean(sha256, t, n - 1);
      RelayAt(sha256, t, n - 1);
      ByteFields(At(sha256, t, n - 1).relay, t[n - 1]);
    }
  }

  /** Output follows input in both directions, and one of the two is never behind. */
  ghost predicate Follows(r: RelayLedger) {
    r.written <= r.received && r.sent <= r.readLocally && (r.written == r.received || r.sent == r.readLocally)
  }

  lemma FollowsAfterCall(l: Ledger, c: Call)
    requires Follows(l.relay) && Permitted(l, c.op)
    ensures Follows(AdvanceRelay(l.relay, c))
  {
    hide AdvanceRelay, MayMove, Chunk, Committed, Utf8.Decode;
    ByteFields(l.relay, c);
  }

  lemma {:induction false} AlwaysFollows(sha256: Hash, t: seq<Call>, n: nat)
    requires n <= |t| && At(sha256, t, n).safe
    ensures Follows(At(sha256, t, n).relay)
  {
    hide Fold, AdvanceRelay, Permitted, Follows;
    if n == 0 {
      EmptyAtStart(sha256, t);
      assert Follows(NO_RELAY) by {
        NothingMoved();
      }
    } else {
      SafeBefore(sha256, t, n - 1, n);
      AlwaysFollows(sha256, t, n - 1);
      RelayAt(sha256, t, n - 1);
      FollowsAfterCall(At(sha256, t, n - 1), t[n - 1]);
    }
  }

  lemma NothingMoved()
    ensures Follows(NO_RELAY)
  {
  }

  // ---------------------------------------------------------------- the order of effects

  /** The vault is asked once at most, and only after all three repositories. */
  ghost predicate VaultInOrder(t: seq<Call>, i: nat)
    requires i < |t|
  {
    t[i].op.ResolveCredential? ==>
      && AskedBefore(t, ReadPolicies, i) && AskedBefore(t, ReadTarget, i) && AskedBefore(t, ReadAccounts, i)
      && forall j :: 0 <= j < i ==> !t[j].op.ResolveCredential?
  }

  /** The credential is there, and the log says that access was allowed and a session is opening. */
  ghost predicate ClearedBefore(t: seq<Call>, n: nat)
    requires n <= |t|
  {
    && (exists credential :: CredentialBefore(t, credential, n))
    && LoggedBefore(t, ACCESS_ALLOWED, n) && LoggedBefore(t, SESSION_OPENING, n)
  }

  /** One connection is dialled at most, and only then. */
  ghost predicate DialInOrder(t: seq<Call>, i: nat)
    requires i < |t|
  {
    t[i].op.ConnectSocket? ==> ClearedBefore(t, i) && forall j :: 0 <= j < i ==> !t[j].op.ConnectSocket?
  }

  /**
    * Every event has an id of its own, taken for it, and a time read for it: after the id, except
    * that the end of a session is read before it and is not before the first reading of the run.
    */
  ghost predicate EventInOrder(t: seq<Call>, i: nat)
    requires i < |t|
  {
    t[i].op.AppendEvent? ==>
      exists j: nat, k: nat :: EventStamped(t, t[i].op.event, j, k, i)
  }

  ghost predicate EventStamped(t: seq<Call>, e: AuditEvent, j: nat, k: nat, i: nat)
    requires i < |t|
  {
    && NewestId(t, j, i) && t[j].reply.text == e.id
    && LastWall(t, k, i) && NoAppendSince(t, k, i)
    && if e.eventType == SESSION_CLOSED || e.eventType == SESSION_FAILED
       then k < j && exists f: nat :: FirstWall(t, f, i) && e.timestamp == Max(t[k].reply.number, t[f].reply.number)
       else j < k && e.timestamp == t[k].reply.number
  }

  /** The wall clock is not read before an id was taken. */
  ghost predicate WallInOrder(t: seq<Call>, i: nat)
    requires i < |t|
  {
    t[i].op.WallClock? ==> exists j: nat :: FirstId(t, j, i)
  }

  /**
    * A password is sent at most once, and only after everything that must come before it; and it is
    * the text of the vault's answer.
    */
  ghost predicate PasswordInOrder(sha256: Hash, t: seq<Call>, i: nat)
    requires i < |t|
  {
    t[i].op.AuthPassword? ==>
      && (forall j :: 0 <= j < i ==> !t[j].op.AuthPassword?)
      && (exists credential ::
            CredentialBefore(t, credential, i) && Utf8.Decode(credential) == Some(t[i].op.password))
      && LoggedBefore(t, ACCESS_ALLOWED, i) && LoggedBefore(t, SESSION_OPENING, i)
      && KeyMatchedBefore(sha256, t, t[i].op.transport, i)
  }

  /** PTY and shell are asked for on a channel of an authenticated transport, the shell after the PTY. */
  ghost predicate ShellInOrder(t: seq<Call>, i: nat)
    requires i < |t|
  {
    t[i].op.GetPty? || t[i].op.InvokeShell? ==>
      && ObtainedBefore(t, Channel(t[i].op.channel), i)
      && AuthenticatedBefore(t, t[t[i].op.channel].op.transport, t[i].op.channel)
      && (t[i].op.InvokeShell? ==> PtyBefore(t, t[i].op.channel, i))
  }

  /** Nothing has stopped the relay: no exception or idle write, no end of file, no late reading. */
  ghost predicate StillGoing(t: seq<Call>, n: nat)
    requires n <= |t|
  {
    LoggedBefore(t, SESSION_ACTIVE, n) && !FaultBefore(t, n) && !EndBefore(t, n) && !LateBefore(t, n)
  }

  /**
    * Data moves only in an active session whose relay nothing has stopped, after an in-time reading
    * that follows the last wait. An end is read exactly when that wait found it readable, the channel
    * first, and before the relay looks at the channel or waits again. A wait lasts no longer than what
    * the last reading left of the deadline.
    */
  ghost predicate RelayInOrder(t: seq<Call>, i: nat)
    requires i < |t|
  {
    var op := t[i].op;
    && (MovesData(op) ==> StillGoing(t, i) && exists d :: DeadlineSet(t, d, i) && ReadInTime(t, d, i))
    && (op.ChannelFlag? || op.Select? ==> StillGoing(t, i) && !ChannelUnread(t, i) && !TerminalUnread(t, i))
    && (op.Select? ==>
          0 < op.remaining
          && exists p: nat :: LastReading(t, p, i) && DeadlineSet(t, t[p].reply.number + op.remaining, i))
    && (op.ChannelFlag? || op.Receive? || op.Send? ==> ShellBefore(t, op.channel, i))
    && (op.Receive? ==> ChannelUnread(t, i) && 0 < op.max)
    && (op.ReadInput? ==> TerminalUnread(t, i) && !ChannelUnread(t, i) && 0 < op.max)
  }

  /** Nothing is read while something is still to be passed on, and what is passed on is just what is missing. */
  ghost predicate BytesInOrder(t: seq<Call>, i: nat)
    requires i < |t|
  {
    var received, written := Moved(ReceivedBy, t, i), Moved(WrittenBy, t, i);
    var readLocally, sent := Moved(ReadLocallyBy, t, i), Moved(SentBy, t, i);
    match t[i].op
    case Receive(_, _) => written == received && sent == readLocally
    case ReadInput(_) => written == received && sent == readLocally
    case WriteOutput(data) => written + data == received
    case Send(_, data) => sent + data == readLocally
    case _ => true
  }

  /** After `n` calls nothing was passed on that had not come in before, in either direction. */
  ghost predicate Conserved(t: seq<Call>, n: nat)
    requires n <= |t|
  {
    var received, written := Moved(ReceivedBy, t, n), Moved(WrittenBy, t, n);
    var readLocally, sent := Moved(ReadLocallyBy, t, n), Moved(SentBy, t, n);
    written <= received && sent <= readLocally && (written == received || sent == readLocally)
  }

  /** Only resources that were obtained are closed, never twice, and after everything that was made on them. */
  ghost predicate CloseInOrder(t: seq<Call>, i: nat)
    requires i < |t|
  {
    t[i].op.Close? ==>
      && ObtainedBefore(t, t[i].op.resource, i) && CloseAttempts(t, t[i].op.resource, i) == 0
      && forall r :: ObtainedBefore(t, r, i) && Above(r, t[i].op.resource) ==> CloseAttempts(t, r, i) == 1
  }

  ghost predicate CallInOrder(sha256: Hash, t: seq<Call>, i: nat)
    requires i < |t|
  {
    && VaultInOrder(t, i) && DialInOrder(t, i) && EventInOrder(t, i) && WallInOrder(t, i)
    && PasswordInOrder(sha256, t, i)
    && ShellInOrder(t, i) && RelayInOrder(t, i) && BytesInOrder(t, i) && CloseInOrder(t, i)
  }

  ghost predicate InOrder(sha256: Hash, t: seq<Call>) {
    && (forall i :: 0 <= i < |t| ==> CallInOrder(sha256, t, i))
    && (forall n :: 0 <= n <= |t| ==> Conserved(t, n))
  }

  lemma VaultSafe(sha256: Hash, t: seq<Call>, i: nat)
    requires i < |t| && At(sha256, t, i).safe && Permitted(At(sha256, t, i), t[i].op)
    ensures VaultInOrder(t, i)
  {
    hide Advance, Fold;
    PortsAlwaysMean(sha256, t, i);
    OnceAlwaysMeans(sha256, t, i);
  }

  lemma DialSafe(sha256: Hash, t: seq<Call>, i: nat)
    requires i < |t| && At(sha256, t, i).safe && Permitted(At(sha256, t, i), t[i].op)
    ensures DialInOrder(t, i)
  {
    hide Advance, Fold, LoggedBefore, CredentialBefore;
    PortsAlwaysMean(sha256, t, i);
    OnceAlwaysMeans(sha256, t, i);
  }

  lemma EventSafe(sha256: Hash, t: seq<Call>, i: nat)
    requires i < |t| && Permitted(At(sha256, t, i), t[i].op)
    ensures EventInOrder(t, i) && WallInOrder(t, i)
  {
    hide Advance, Fold, NewestId, LastWall, FirstWall, FirstId, NoAppendSince;
    StampsAlwaysMean(sha256, t, i);
    if t[i].op.AppendEvent? {
      EventWasStamped(At(sha256, t, i).stamps, t, t[i].op.event, i);
    }
  }

  lemma EventWasStamped(p: StampLedger, t: seq<Call>, e: AuditEvent, i: nat)
    requires i < |t| && Stamped(p, e) && FirstsMean(p, t, i) && LatestMean(p, t, i)
    ensures exists j: nat, k: nat :: EventStamped(t, e, j, k, i)
  {
    hide FirstId, NoAppendSince;
    var j: nat :| NewestId(t, j, i) && t[j].reply.text == e.id;
    var k: nat :| LastWall(t, k, i) && t[k].reply.number == p.reading.value;
    assert j != k;
    if EndsSession(e.eventType) {
      var f: nat :| FirstWall(t, f, i) && t[f].reply.number == p.firstReading.value;
    }
    assert EventStamped(t, e, j, k, i);
  }

  lemma PasswordSafe(sha256: Hash, t: seq<Call>, i: nat)
    requires i < |t| && At(sha256, t, i).safe && Permitted(At(sha256, t, i), t[i].op)
    ensures PasswordInOrder(sha256, t, i)
  {
    hide Advance, Fold, KeyMatchedBefore, LoggedBefore, CredentialBefore, PinsMean, Utf8.Decode;
    PortsAlwaysMean(sha256, t, i);
    OnceAlwaysMeans(sha256, t, i);
    LoginsAlwaysMean(sha256, t, i);
  }

  lemma ShellSafe(sha256: Hash, t: seq<Call>, i: nat)
    requires i < |t| && At(sha256, t, i).safe && Permitted(At(sha256, t, i), t[i].op)
    ensures ShellInOrder(t, i)
  {
    hide Advance, Fold, AuthenticatedBefore, PtyBefore, PinsMean, KeyMatchedBefore;
    if t[i].op.GetPty? || t[i].op.InvokeShell? {
      var ch := t[i].op.channel;
      CountsAlwaysMatch(sha256, t, i);
      assert ObtainedBefore(t, Channel(ch), i);
      SafeBefore(sha256, t, ch, i);
      LoginsAlwaysMean(sha256, t, ch);
      LoginsAlwaysMean(sha256, t, i);
    }
  }

  lemma RelaySafe(sha256: Hash, t: seq<Call>, i: nat)
    requires i < |t| && At(sha256, t, i).safe && Permitted(At(sha256, t, i), t[i].op)
    ensures RelayInOrder(t, i)
  {
    hide Advance, Fold, DeadlineSet, ReadInTime, LoggedBefore, LateBefore, FaultBefore, EndBefore, Committed;
    hide ChannelUnread, TerminalUnread, ShellBefore, PinsMean, KeyMatchedBefore, LastReading;
    ClockAlwaysMeans(sha256, t, i);
    NowAlwaysMeans(sha256, t, i);
    StopsAlwaysMean(sha256, t, i);
    PortsAlwaysMean(sha256, t, i);
    LoginsAlwaysMean(sha256, t, i);
  }

  lemma BytesSafe(sha256: Hash, t: seq<Call>, i: nat)
    requires i < |t| && Permitted(At(sha256, t, i), t[i].op)
    ensures BytesInOrder(t, i)
  {
    hide Advance, Fold, Moved, MayMove;
    BytesAlwaysMean(sha256, t, i);
  }

  lemma CloseSafe(sha256: Hash, t: seq<Call>, i: nat)
    requires i < |t| && At(sha256, t, i).safe && Permitted(At(sha256, t, i), t[i].op)
    ensures CloseInOrder(t, i)
  {
    hide Advance, Fold;
    CountsAlwaysMatch(sha256, t, i);
  }

  /** At every moment of a safe run, output is a prefix of input. */
  lemma SafeConserves(sha256: Hash, t: seq<Call>, n: nat)
    requires n <= |t| && At(sha256, t, n).safe
    ensures Conserved(t, n)
  {
    hide Fold, Moved;
    AlwaysFollows(sha256, t, n);
    BytesAlwaysMean(sha256, t, n);
  }

  /** A safe ledger means that every call came in order, and that bytes were conserved throughout. */
  lemma SafeMeansInOrder(sha256: Hash, t: seq<Call>)
    requires Fold(sha256, t).safe
    ensures InOrder(sha256, t)
  {
    hide Fold, Advance, VaultInOrder, DialInOrder, EventInOrder, WallInOrder, PasswordInOrder, ShellInOrder;
    hide RelayInOrder, BytesInOrder, CloseInOrder, Conserved, Permitted;
    assert t[..|t|] == t;
    forall i | 0 <= i < |t|
      ensures CallInOrder(sha256, t, i)
    {
      SafeBefore(sha256, t, i, |t|);
      VaultSafe(sha256, t, i);
      DialSafe(sha256, t, i);
      EventSafe(sha256, t, i);
      PasswordSafe(sha256, t, i);
      ShellSafe(sha256, t, i);
      RelaySafe(sha256, t, i);
      BytesSafe(sha256, t, i);
      CloseSafe(sha256, t, i);
    }
    forall n | 0 <= n <= |t|
      ensures Conserved(t, n)
    {
      SafeBefore(sha256, t, n, |t|);
      SafeConserves(sha256, t, n);
    }
  }
}
