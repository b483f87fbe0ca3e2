/**
  * The outside world of one access run. Every call that leaves the program goes through
  * `Environment.Perform`, which takes the answer from an arbitrary script and records the call.
  * A property that holds for every script holds for every behaviour of the world.
  *
  * The ledger is a running summary of the recorded calls; `TraceSafety` says what it means in
  * terms of the calls themselves.
  */
module Effects {
  import opened Basics
  import opened AuditEvents
  import Config
  import Fingerprint
  import Utf8

  /** A socket, transport or raw channel, named by the position of the call that returned it. */
  datatype Resource = Socket(id: nat) | Transport(id: nat) | Channel(id: nat)

  datatype Operation =
    // ports of the access service
    | ReadPolicies
    | ReadTarget
    | ReadAccounts
    | ResolveCredential(reference: string)
    | NewId
    | WallClock
    | AppendEvent(event: AuditEvent)
    // sockets, transports and channels
    | ConnectSocket(target: Config.Target)
    | CreateTransport(socket: nat)
    | StartClient(transport: nat)
    | GetServerKey(transport: nat)
    | AuthPassword(transport: nat, username: string, password: string)
    | IsAuthenticated(transport: nat)
    | OpenChannel(transport: nat)
    | GetPty(channel: nat)
    | InvokeShell(channel: nat)
    | Close(resource: Resource)
    // the relay
    | ChannelFlag(channel: nat)
    | StartClock(duration: int)
    | ReadClock
    | Select(remaining: int)
    | Receive(channel: nat, max: nat)
    | WriteOutput(data: Bytes)
    | ReadInput(max: nat)
    | Send(channel: nat, data: Bytes)

  /** An answer; each operation looks at the parts that concern it. */
  datatype Reply = Reply(raised: bool, flag: bool, otherFlag: bool, number: int, text: string, data: Bytes)

  datatype Call = Call(op: Operation, reply: Reply)

  /** How many of `offered` bytes a system call took. */
  function Taken(offered: Bytes, number: int): (n: nat)
    ensures n <= |offered|
  {
    if number < 0 then 0 else Min(number, |offered|)
  }

  /** At most `max` bytes of an answer. */
  function Chunk(data: Bytes, max: nat): Bytes {
    data[..Min(max, |data|)]
  }

  // ---------------------------------------------------------------- what single calls tell

  /** A repository or the vault raised. */
  predicate LookupFault(c: Call) {
    c.reply.raised && (c.op.ReadPolicies? || c.op.ReadTarget? || c.op.ReadAccounts? || c.op.ResolveCredential?)
  }

  /** The vault answered with a credential. */
  predicate CredentialFound(c: Call) {
    c.op.ResolveCredential? && !c.reply.raised && c.reply.flag
  }

  /** A step of connecting raised, or the server did not accept the password. */
  predicate ConnectionFault(c: Call) {
    || (c.reply.raised
        && (c.op.ConnectSocket? || c.op.CreateTransport? || c.op.StartClient? || c.op.GetServerKey?
            || c.op.AuthPassword? || c.op.OpenChannel? || c.op.GetPty? || c.op.InvokeShell?))
    || (c.op.IsAuthenticated? && (c.reply.raised || !c.reply.flag))
  }

  /** Waiting or moving data raised, or a write of something took nothing. */
  predicate RelayFault(c: Call) {
    || (c.reply.raised && (c.op.Select? || MovesData(c.op)))
    || (c.op.WriteOutput? && c.op.data != [] && Taken(c.op.data, c.reply.number) == 0)
  }

  /** The raw channel was found closed, or one of the two ends delivered its end of file. */
  predicate RelayEnd(c: Call) {
    || (c.op.ChannelFlag? && c.reply.flag)
    || ((c.op.Receive? || c.op.ReadInput?) && !c.reply.raised && c.reply.data == [])
  }

  // ---------------------------------------------------------------- the ledger

  /** What the repositories and the vault were asked and answered. */
  datatype PortsLedger = PortsLedger(
    policiesRead: bool,
    targetRead: bool,
    accountsRead: bool,
    raised: bool,
    vaultAsked: Option<string>,
    credential: Option<Bytes>)

  /** How far the connection has come. */
  datatype LinkLedger = LinkLedger(
    dialled: Option<Config.Target>,
    pins: map<Resource, string>,
    started: set<nat>,
    keyMatched: set<nat>,
    login: Option<(string, string)>,
    passwordSent: set<nat>,
    authenticated: set<nat>,
    ptys: set<nat>,
    shells: set<nat>,
    failed: bool)

  /** The relay's clock, how it stopped, and the bytes that moved in both directions. */
  datatype RelayLedger = RelayLedger(
    start: int,
    deadline: Option<int>,
    expired: bool,      // a reading was at or past the deadline
    faulted: bool,      // some call was a `RelayFault`
    ended: bool,        // some call was a `RelayEnd`
    waiting: bool,      // no reading since the last wait
    inTime: bool,       // the reading after the last wait was before the deadline
    remoteReady: bool,  // the last wait found the channel readable, and it was not read since
    localReady: bool,   // the same of the terminal
    asked: set<nat>,    // how many bytes reads of either end asked for
    waits: nat,
    now: int,           // the last reading
    lastReading: int,   // the last reading taken after a wait, at first the start
    steady: bool,       // each of those readings was at least one tick after the one before
    received: Bytes,
    lastReceived: Bytes,
    written: Bytes,
    readLocally: Bytes,
    lastReadLocally: Bytes,
    sent: Bytes)

  /** The ids taken and the wall clock's readings. */
  datatype StampLedger = StampLedger(
    firstId: Option<string>,
    newestId: Option<string>,   // the last id taken, while no event has used it
    firstReading: Option<int>,
    reading: Option<int>,       // the last reading
    unspent: bool,              // it was taken after the last attempt to append
    afterId: bool)              // it was taken after the newest id

  datatype Ledger = Ledger(
    events: seq<AuditEvent>,
    lost: set<AuditEventType>,  // the kinds of event whose append raised
    stamps: StampLedger,
    ports: PortsLedger,
    link: LinkLedger,
    open: set<Resource>,
    closeFailures: set<Resource>,
    relay: RelayLedger,
    safe: bool)

  const NO_PORTS := PortsLedger(false, false, false, false, None, None)

  const NO_LINK := LinkLedger(None, map[], {}, {}, None, {}, {}, {}, {}, false)

  const NO_RELAY :=
    RelayLedger(0, None, false, false, false, false, false, false, false, {}, 0, 0, 0, true, [], [], [], [], [], [])

  const NO_STAMPS := StampLedger(None, None, None, None, false, false)

  const EMPTY_LEDGER := Ledger([], {}, NO_STAMPS, NO_PORTS, NO_LINK, {}, {}, NO_RELAY, true)

  predicate Committed(events: seq<AuditEvent>, kind: AuditEventType) {
    exists e :: e in events && e.eventType == kind
  }

  predicate MovesData(op: Operation) {
    op.Receive? || op.WriteOutput? || op.ReadInput? || op.Send?
  }

  /** A connection may be dialled, and later a password sent. */
  predicate Cleared(l: Ledger) {
    l.ports.credential.Some? && Committed(l.events, ACCESS_ALLOWED) && Committed(l.events, SESSION_OPENING)
  }

  /** The relay runs: its clock was started in an active session, and nothing has stopped it yet. */
  predicate Relaying(l: Ledger) {
    && l.relay.deadline.Some? && !l.relay.expired && !l.relay.faulted && !l.relay.ended
    && Committed(l.events, SESSION_ACTIVE)
  }

  /** Both ends that the last wait found readable were read. */
  predicate Served(r: RelayLedger) {
    !r.remoteReady && !r.localReady
  }

  /** Every received byte was written and every byte read locally was sent. */
  predicate Balanced(r: RelayLedger) {
    r.written == r.received && r.sent == r.readLocally
  }

  predicate MayMove(l: Ledger) {
    Relaying(l) && l.relay.inTime
  }

  /** Channels are made on transports, and transports on sockets. */
  predicate Above(o: Resource, r: Resource) {
    (r.Transport? && o.Channel?) || (r.Socket? && !o.Socket?)
  }

  /** Nothing is open that may have been made on this resource. */
  predicate Innermost(open: set<Resource>, r: Resource) {
    forall o :: o in open ==> !Above(o, r)
  }

  predicate EndsSession(kind: AuditEventType) {
    kind == SESSION_CLOSED || kind == SESSION_FAILED
  }

  /**
    * An event has an id taken for it and a time read for it. The end of a session is read before the
    * id is taken, and is not before the first reading; any other time is read after it.
    */
  predicate Stamped(p: StampLedger, e: AuditEvent) {
    && p.newestId == Some(e.id) && p.unspent && p.reading.Some? && p.firstReading.Some?
    && if EndsSession(e.eventType)
       then !p.afterId && e.timestamp == Max(p.reading.value, p.firstReading.value)
       else p.afterId && e.timestamp == p.reading.value
  }

  /** The order in which the run may do things, and on what. */
  predicate Permitted(l: Ledger, op: Operation) {
    match op
    case WallClock => l.stamps.firstId.Some?
    case AppendEvent(e) => Stamped(l.stamps, e)
    case ResolveCredential(_) =>
      l.ports.policiesRead && l.ports.targetRead && l.ports.accountsRead && l.ports.vaultAsked.None?
    case ConnectSocket(_) => Cleared(l) && l.link.dialled.None?
    case CreateTransport(s) => Socket(s) in l.open
    case StartClient(t) => Transport(t) in l.open
    case GetServerKey(t) => Transport(t) in l.open && t in l.link.started
    case AuthPassword(t, _, password) =>
      && Transport(t) in l.open && t in l.link.keyMatched && l.link.login.None? && Cleared(l)
      && Utf8.Decode(l.ports.credential.value) == Some(password)
    case IsAuthenticated(t) => Transport(t) in l.open && t in l.link.passwordSent
    case OpenChannel(t) => Transport(t) in l.open && t in l.link.authenticated
    case GetPty(c) => Channel(c) in l.open
    case InvokeShell(c) => Channel(c) in l.open && c in l.link.ptys
    case Close(r) => r in l.open && Innermost(l.open, r)
    case ChannelFlag(c) => Channel(c) in l.open && c in l.link.shells && Relaying(l) && Served(l.relay)
    case StartClock(_) => l.relay.deadline.None? && Committed(l.events, SESSION_ACTIVE)
    case ReadClock => l.relay.deadline.Some? && (l.relay.waiting || Served(l.relay))
    case Select(remaining) =>
      Relaying(l) && Served(l.relay) && 0 < remaining && l.relay.now + remaining == l.relay.deadline.value
    case Receive(c, max) =>
      && Channel(c) in l.open && c in l.link.shells && MayMove(l)
      && Balanced(l.relay) && l.relay.remoteReady && 0 < max
    case WriteOutput(data) => MayMove(l) && l.relay.written + data == l.relay.received
    case ReadInput(max) =>
      MayMove(l) && Balanced(l.relay) && l.relay.localReady && !l.relay.remoteReady && 0 < max
    case Send(c, data) =>
      && Channel(c) in l.open && c in l.link.shells && MayMove(l)
      && l.relay.sent + data == l.relay.readLocally
    case _ => true
  }

  function Obtained(i: nat, c: Call): Option<Resource> {
    if c.reply.raised then None
    else if c.op.ConnectSocket? then Some(Socket(i))
    else if c.op.CreateTransport? then Some(Transport(i))
    else if c.op.OpenChannel? then Some(Channel(i))
    else None
  }

  // ---------------------------------------------------------------- how a call changes the ledger

  ghost predicate SameBytes(r: RelayLedger, m: RelayLedger) {
    && m.received == r.received && m.lastReceived == r.lastReceived && m.written == r.written
    && m.readLocally == r.readLocally && m.lastReadLocally == r.lastReadLocally && m.sent == r.sent
  }

  function TakeReading(r: RelayLedger, now: int): (m: RelayLedger)
    ensures SameBytes(r, m)
    ensures m == r.(now := m.now, expired := m.expired, waiting := m.waiting, inTime := m.inTime,
                    lastReading := m.lastReading, steady := m.steady)
    ensures m.now == if r.deadline.Some? then now else r.now
    ensures m.expired <==> r.expired || (r.deadline.Some? && r.deadline.value <= now)
  {
    if r.deadline.None? then r
    else
      var late := now >= r.deadline.value;
      var seen := r.(now := now, expired := r.expired || late);
      if !r.waiting then seen
      else seen.(waiting := false, inTime := !late, lastReading := now,
                 steady := r.steady && r.lastReading + 1 <= now)
  }

  function AdvanceClock(r: RelayLedger, c: Call): (m: RelayLedger)
    ensures SameBytes(r, m) && m.faulted == r.faulted && m.ended == r.ended && m.asked == r.asked
    ensures m.expired <==>
            r.expired || (c.op.ReadClock? && r.deadline.Some? && r.deadline.value <= c.reply.number)
    ensures !c.op.StartClock? ==> m.start == r.start && m.deadline == r.deadline
    ensures m.waits == r.waits + (if c.op.Select? then 1 else 0)
    ensures m.now == if c.op.StartClock? || (c.op.ReadClock? && r.deadline.Some?) then c.reply.number else r.now
    ensures m.remoteReady == if c.op.Select? then !c.reply.raised && c.reply.flag else r.remoteReady
    ensures m.localReady == if c.op.Select? then !c.reply.raised && c.reply.otherFlag else r.localReady
  {
    hide TakeReading;
    if c.op.StartClock? then
      r.(start := c.reply.number, deadline := Some(c.reply.number + c.op.duration), now := c.reply.number,
         lastReading := c.reply.number)
    else if c.op.ReadClock? then TakeReading(r, c.reply.number)
    else if c.op.Select? then
      r.(waiting := true, inTime := false, waits := r.waits + 1,
         remoteReady := !c.reply.raised && c.reply.flag, localReady := !c.reply.raised && c.reply.otherFlag)
    else r
  }

  /** What this call received from the channel, wrote to the terminal, read from the terminal or sent. */
  function ReceivedBy(c: Call): Bytes {
    if c.op.Receive? && !c.reply.raised then Chunk(c.reply.data, c.op.max) else []
  }

  function WrittenBy(c: Call): Bytes {
    if c.op.WriteOutput? && !c.reply.raised then c.op.data[..Taken(c.op.data, c.reply.number)] else []
  }

  function ReadLocallyBy(c: Call): Bytes {
    if c.op.ReadInput? && !c.reply.raised then Chunk(c.reply.data, c.op.max) else []
  }

  /** `sendall` sends everything, or raises after some part of it. */
  function SentBy(c: Call): Bytes {
    if !c.op.Send? then []
    else if c.reply.raised then c.op.data[..Taken(c.op.data, c.reply.number)]
    else c.op.data
  }

  function AdvanceBytes(r: RelayLedger, c: Call): RelayLedger {
    r.(received := r.received + ReceivedBy(c),
       lastReceived := if c.op.Receive? && !c.reply.raised then ReceivedBy(c) else r.lastReceived,
       written := r.written + WrittenBy(c),
       readLocally := r.readLocally + ReadLocallyBy(c),
       lastReadLocally := if c.op.ReadInput? && !c.reply.raised then ReadLocallyBy(c) else r.lastReadLocally,
       sent := r.sent + SentBy(c),
       asked := if c.op.Receive? || c.op.ReadInput? then r.asked + {c.op.max} else r.asked,
       remoteReady := r.remoteReady && !c.op.Receive?,
       localReady := r.localReady && !c.op.ReadInput?)
  }

  function AdvanceRelay(r: RelayLedger, c: Call): RelayLedger {
    AdvanceBytes(AdvanceClock(r, c), c).(faulted := r.faulted || RelayFault(c), ended := r.ended || RelayEnd(c))
  }

  function AdvancePorts(p: PortsLedger, c: Call): PortsLedger {
    PortsLedger(
      p.policiesRead || c.op.ReadPolicies?,
      p.targetRead || c.op.ReadTarget?,
      p.accountsRead || c.op.ReadAccounts?,
      p.raised || LookupFault(c),
      if c.op.ResolveCredential? then Some(c.op.reference) else p.vaultAsked,
      if CredentialFound(c) then Some(c.reply.data) else p.credential)
  }

  /** A transport inherits the pin of the target that its socket was opened to. */
  function NextPins(k: LinkLedger, i: nat, c: Call): map<Resource, string> {
    if c.op.ConnectSocket? && !c.reply.raised then k.pins[Socket(i) := c.op.target.expectedHostKey]
    else if c.op.CreateTransport? && !c.reply.raised && Socket(c.op.socket) in k.pins
    then k.pins[Transport(i) := k.pins[Socket(c.op.socket)]]
    else k.pins
  }

  /** The server's key was shown, and it is the pinned one. */
  predicate KeyShownMatches(sha256: Fingerprint.HashFunction, k: LinkLedger, c: Call) {
    && c.op.GetServerKey? && !c.reply.raised && Transport(c.op.transport) in k.pins
    && Fingerprint.PinMatches(sha256, k.pins[Transport(c.op.transport)], c.reply.data)
  }

  function NextKeyMatched(sha256: Fingerprint.HashFunction, k: LinkLedger, c: Call): set<nat> {
    if !c.op.GetServerKey? then k.keyMatched
    else if KeyShownMatches(sha256, k, c) then k.keyMatched + {c.op.transport}
    else k.keyMatched - {c.op.transport}
  }

  function NextAuthenticated(k: LinkLedger, c: Call): set<nat> {
    if c.op.IsAuthenticated? && !c.reply.raised && c.reply.flag && c.op.transport in k.passwordSent
    then k.authenticated + {c.op.transport}
    else k.authenticated
  }

  predicate NextFailed(sha256: Fingerprint.HashFunction, k: LinkLedger, c: Call) {
    k.failed || ConnectionFault(c) || (c.op.GetServerKey? && !KeyShownMatches(sha256, k, c))
  }

  function AdvanceLink(sha256: Fingerprint.HashFunction, k: LinkLedger, i: nat, c: Call): LinkLedger {
    LinkLedger(
      if c.op.ConnectSocket? then Some(c.op.target) else k.dialled,
      NextPins(k, i, c),
      if c.op.StartClient? && !c.reply.raised then k.started + {c.op.transport} else k.started,
      NextKeyMatched(sha256, k, c),
      if c.op.AuthPassword? then Some((c.op.username, c.op.password)) else k.login,
      if c.op.AuthPassword? then k.passwordSent + {c.op.transport} else k.passwordSent,
      NextAuthenticated(k, c),
      if c.op.GetPty? && !c.reply.raised then k.ptys + {c.op.channel} else k.ptys,
      if c.op.InvokeShell? && !c.reply.raised then k.shells + {c.op.channel} else k.shells,
      NextFailed(sha256, k, c))
  }

  function FirstOf<T>(first: Option<T>, next: T): Option<T> {
    if first.Some? then first else Some(next)
  }

  function NextStamps(p: StampLedger, c: Call): StampLedger {
    if c.op.NewId? then
      p.(firstId := FirstOf(p.firstId, c.reply.text), newestId := Some(c.reply.text), afterId := false)
    else if c.op.WallClock? then
      p.(firstReading := FirstOf(p.firstReading, c.reply.number), reading := Some(c.reply.number), unspent := true,
         afterId := p.newestId.Some?)
    else if c.op.AppendEvent? then p.(newestId := None, unspent := false, afterId := false)
    else p
  }

  function NextOpen(open: set<Resource>, i: nat, c: Call): set<Resource> {
    if c.op.Close? then open - {c.op.resource}
    else
      match Obtained(i, c)
      case Some(r) => open + {r}
      case None => open
  }

  function Advance(sha256: Fingerprint.HashFunction, l: Ledger, i: nat, c: Call): Ledger {
    Ledger(
      if c.op.AppendEvent? && !c.reply.raised then l.events + [c.op.event] else l.events,
      if c.op.AppendEvent? && c.reply.raised then l.lost + {c.op.event.eventType} else l.lost,
      NextStamps(l.stamps, c),
      AdvancePorts(l.ports, c),
      AdvanceLink(sha256, l.link, i, c),
      NextOpen(l.open, i, c),
      if c.op.Close? && c.reply.raised then l.closeFailures + {c.op.resource} else l.closeFailures,
      AdvanceRelay(l.relay, c),
      l.safe && Permitted(l, c.op))
  }

  predicate ConcernsLink(op: Operation) {
    || op.ConnectSocket? || op.CreateTransport? || op.StartClient? || op.GetServerKey? || op.AuthPassword?
    || op.IsAuthenticated? || op.OpenChannel? || op.GetPty? || op.InvokeShell?
  }

  lemma LinkUntouched(sha256: Fingerprint.HashFunction, k: LinkLedger, i: nat, c: Call)
    requires !ConcernsLink(c.op)
    ensures AdvanceLink(sha256, k, i, c) == k
  {
    hide KeyShownMatches;
  }

  lemma RelayUntouched(r: RelayLedger, c: Call)
    requires !ConcernsRelay(c.op)
    ensures AdvanceRelay(r, c) == r
  {
  }

  /** A step of connecting changes only the connection's part of the ledger and what is open. */
  lemma LinkAdvances(sha256: Fingerprint.HashFunction, l: Ledger, i: nat, c: Call)
    requires ConcernsLink(c.op)
    ensures Advance(sha256, l, i, c)
         == l.(link := AdvanceLink(sha256, l.link, i, c), open := NextOpen(l.open, i, c),
               safe := l.safe && Permitted(l, c.op))
  {
    hide AdvanceRelay, AdvanceLink, NextOpen, Permitted;
    RelayUntouched(l.relay, c);
  }

  predicate ConcernsRelay(op: Operation) {
    op.ChannelFlag? || op.StartClock? || op.ReadClock? || op.Select? || MovesData(op)
  }

  /** A call of the relay changes only the relay's part of the ledger. */
  lemma RelayAdvances(sha256: Fingerprint.HashFunction, l: Ledger, i: nat, c: Call)
    requires ConcernsRelay(c.op)
    ensures Advance(sha256, l, i, c)
         == l.(relay := AdvanceRelay(l.relay, c), safe := l.safe && Permitted(l, c.op))
  {
    hide AdvanceRelay, Permitted, Fingerprint.PinMatches;
  }

  /** Any other call leaves the connection's and the relay's part alone. */
  lemma OthersAdvance(sha256: Fingerprint.HashFunction, l: Ledger, i: nat, c: Call)
    requires !ConcernsLink(c.op) && !ConcernsRelay(c.op)
    ensures Advance(sha256, l, i, c) == Advance(sha256, l, i, c).(link := l.link, relay := l.relay)
  {
    hide AdvanceRelay, AdvanceLink, AdvancePorts, NextOpen, NextStamps, Permitted;
    LinkUntouched(sha256, l.link, i, c);
    RelayUntouched(l.relay, c);
  }

  function Fold(sha256: Fingerprint.HashFunction, trace: seq<Call>): Ledger {
    if trace == [] then EMPTY_LEDGER
    else
      var n := |trace| - 1;
      Advance(sha256, Fold(sha256, trace[..n]), n, trace[n])
  }

  lemma NothingYet(sha256: Fingerprint.HashFunction)
    ensures Fold(sha256, []) == EMPTY_LEDGER
  {
  }

  class Environment {
    const script: nat -> Reply
    const sha256: Fingerprint.HashFunction
    var trace: seq<Call>

    constructor (script: nat -> Reply, sha256: Fingerprint.HashFunction)
      ensures this.script == script && this.sha256 == sha256 && trace == []
    {
      this.script := script;
      this.sha256 := sha256;
      trace := [];
    }

    ghost function L(): Ledger
      reads this
    {
      Fold(sha256, trace)
    }

    method Perform(op: Operation) returns (reply: Reply)
      modifies this
      ensures reply == script(|old(trace)|)
      ensures trace == old(trace) + [Call(op, reply)]
      ensures L() == Advance(sha256, old(L()), |old(trace)|, Call(op, reply))
    {
      reply := script(|trace|);
      ghost var before := trace;
      trace := trace + [Call(op, reply)];
      assert trace[..|before|] == before;
    }

    /** The same for a port or a close. */
    method PerformOther(op: Operation) returns (reply: Reply)
      requires !ConcernsLink(op) && !ConcernsRelay(op)
      modifies this
      ensures reply == script(|old(trace)|)
      ensures trace == old(trace) + [Call(op, reply)]
      ensures var c, l := Call(op, reply), old(L());
              L() == l.(
                events := if op.AppendEvent? && !reply.raised then l.events + [op.event] else l.events,
                lost := if op.AppendEvent? && reply.raised then l.lost + {op.event.eventType} else l.lost,
                stamps := NextStamps(l.stamps, c),
                ports := AdvancePorts(l.ports, c), open := NextOpen(l.open, |old(trace)|, c),
                closeFailures :=
                  if op.Close? && reply.raised then l.closeFailures + {op.resource} else l.closeFailures,
                safe := l.safe && Permitted(l, op))
    {
      hide Fold, AdvanceLink, AdvanceRelay, AdvancePorts, NextOpen, NextStamps, Permitted;
      OthersAdvance(sha256, L(), |trace|, Call(op, script(|trace|)));
      reply := Perform(op);
    }

    /** The same for a step of connecting. */
    method PerformLink(op: Operation) returns (reply: Reply)
      requires ConcernsLink(op)
      modifies this
      ensures reply == script(|old(trace)|)
      ensures trace == old(trace) + [Call(op, reply)]
      ensures var c, i := Call(op, reply), |old(trace)|;
              L() == old(L()).(
                link := AdvanceLink(sha256, old(L().link), i, c), open := NextOpen(old(L().open), i, c),
                safe := old(L().safe) && Permitted(old(L()), op))
    {
      hide Advance, Fold, AdvanceLink, NextOpen, Permitted;
      LinkAdvances(sha256, L(), |trace|, Call(op, script(|trace|)));
      reply := Perform(op);
    }

    /** The same for a call of the relay. */
    method PerformRelay(op: Operation) returns (reply: Reply)
      requires ConcernsRelay(op)
      modifies this
      ensures reply == script(|old(trace)|)
      ensures trace == old(trace) + [Call(op, reply)]
      ensures L() == old(L()).(
                relay := AdvanceRelay(old(L().relay), Call(op, reply)),
                safe := old(L().safe) && Permitted(old(L()), op))
    {
      hide Advance, Fold, AdvanceRelay, Permitted;
      RelayAdvances(sha256, L(), |trace|, Call(op, script(|trace|)));
      reply := Perform(op);
    }
  }
}
