/**
  * src/infrastructure/ssh/paramiko_connection.py, interactive_channel.py: the nested owners of a
  * socket, a transport and a raw channel. A Boolean out-parameter `raised` stands for an exception.
  */
module SshStack {
  import opened Basics
  import opened AuditEvents
  import opened Effects
  import Config
  import Fingerprint
  import Utf8

  /** The ledger after closing some resources, with the close attempts that raised. */
  ghost predicate ClosedExactly(before: Ledger, after: Ledger, rs: set<Resource>, failed: set<Resource>) {
    after == before.(open := before.open - rs, closeFailures := before.closeFailures + failed)
  }

  /** Closing, and nothing else, happened. */
  ghost predicate OnlyCloses(before: Ledger, after: Ledger) {
    after == before.(open := after.open, closeFailures := after.closeFailures)
  }

  /** Connecting changes nothing but the connection's own part of the ledger. */
  ghost predicate OnlyConnectionChanged(before: Ledger, after: Ledger) {
    after == before.(link := after.link, open := after.open, closeFailures := after.closeFailures)
  }

  /** Like `OnlyConnectionChanged`, and towards the same target. */
  ghost predicate OnlyNegotiationChanged(before: Ledger, after: Ledger) {
    OnlyConnectionChanged(before, after) && after.link.dialled == before.link.dialled
  }

  /** The run is at the point where a connection may be opened. */
  ghost predicate ReadyToConnect(l: Ledger) {
    Unauthenticated(l) && l.open == {} && l.link.dialled.None? && !l.link.failed
  }

  /** No password has been sent yet, and no close attempt has failed. */
  ghost predicate Unauthenticated(l: Ledger) {
    l.safe && l.link.login.None? && l.closeFailures == {} && Cleared(l)
  }

  ghost predicate Pinned(l: Ledger, r: Resource, pin: string) {
    r in l.link.pins && l.link.pins[r] == pin
  }

  // ---------------------------------------------------------------- single calls

  /** One close attempt. */
  method AttemptClose(env: Environment, r: Resource) returns (raised: bool)
    requires env.L().safe && r in env.L().open && Innermost(env.L().open, r)
    modifies env
    ensures ClosedExactly(old(env.L()), env.L(), {r}, if raised then {r} else {})
  {
    hide Advance, Fold;
    var reply := env.PerformOther(Operation.Close(r));
    return reply.raised;
  }

  method ConnectSocket(env: Environment, target: Config.Target) returns (socket: Option<nat>)
    requires ReadyToConnect(env.L())
    modifies env
    ensures OnlyConnectionChanged(old(env.L()), env.L()) && Unauthenticated(env.L())
    ensures env.L().link.dialled == Some(target)
    ensures socket.None? <==> env.L().link.failed
    ensures socket.None? ==> env.L().open == {}
    ensures socket.Some? ==>
              && env.L().open == {Socket(socket.value)}
              && Pinned(env.L(), Socket(socket.value), target.expectedHostKey)
  {
    hide Advance, Fold;
    var id := |env.trace|;
    var reply := env.PerformLink(Operation.ConnectSocket(target));
    return if reply.raised then None else Some(id);
  }

  method CreateTransport(env: Environment, socket: nat, ghost pin: string) returns (transport: Option<nat>)
    requires Unauthenticated(env.L()) && !env.L().link.failed
    requires env.L().open == {Socket(socket)} && Pinned(env.L(), Socket(socket), pin)
    modifies env
    ensures OnlyNegotiationChanged(old(env.L()), env.L()) && Unauthenticated(env.L())
    ensures transport.None? <==> env.L().link.failed
    ensures transport.None? ==> env.L().open == {Socket(socket)}
    ensures transport.Some? ==>
              && env.L().open == {Socket(socket), Transport(transport.value)}
              && Pinned(env.L(), Transport(transport.value), pin)
  {
    hide Advance, Fold;
    var id := |env.trace|;
    var reply := env.PerformLink(Operation.CreateTransport(socket));
    return if reply.raised then None else Some(id);
  }

  method StartClient(env: Environment, transport: nat) returns (ok: bool)
    requires env.L().safe && Transport(transport) in env.L().open && !env.L().link.failed
    modifies env
    ensures OnlyNegotiationChanged(old(env.L()), env.L()) && env.L().safe
    ensures env.L().open == old(env.L().open) && env.L().closeFailures == old(env.L().closeFailures)
    ensures env.L().link == old(env.L().link).(started := env.L().link.started, failed := !ok)
    ensures ok ==> transport in env.L().link.started
  {
    hide Advance, Fold;
    var reply := env.PerformLink(Operation.StartClient(transport));
    return !reply.raised;
  }

  /** `get_remote_server_key`, with the pin that the answer is about to be compared with. */
  method GetServerKey(env: Environment, transport: nat, ghost pin: string) returns (key: Option<Bytes>)
    requires Unauthenticated(env.L()) && !env.L().link.failed
    requires Transport(transport) in env.L().open && transport in env.L().link.started
    requires Pinned(env.L(), Transport(transport), pin)
    modifies env
    ensures OnlyNegotiationChanged(old(env.L()), env.L()) && Unauthenticated(env.L())
    ensures env.L().open == old(env.L().open)
    ensures env.L().link.failed <==> key.None? || !Fingerprint.PinMatches(env.sha256, pin, key.value)
    ensures !env.L().link.failed ==> transport in env.L().link.keyMatched
  {
    hide Fingerprint.PinMatches;
    var reply := env.PerformLink(Operation.GetServerKey(transport));
    return if reply.raised then None else Some(reply.data);
  }

  method AuthPassword(env: Environment, transport: nat, username: string, password: string) returns (ok: bool)
    requires Unauthenticated(env.L()) && !env.L().link.failed
    requires Transport(transport) in env.L().open && transport in env.L().link.keyMatched
    requires Utf8.Decode(env.L().ports.credential.value) == Some(password)
    modifies env
    ensures OnlyNegotiationChanged(old(env.L()), env.L()) && env.L().safe
    ensures env.L().open == old(env.L().open) && env.L().closeFailures == {}
    ensures env.L().link.login == Some((username, password)) && transport in env.L().link.passwordSent
    ensures ok <==> !env.L().link.failed
  {
    hide Utf8.Decode, Fingerprint.PinMatches;
    var reply := env.PerformLink(Operation.AuthPassword(transport, username, password));
    return !reply.raised;
  }

  method IsAuthenticated(env: Environment, transport: nat) returns (ok: bool)
    requires env.L().safe && Transport(transport) in env.L().open && !env.L().link.failed
    requires transport in env.L().link.passwordSent
    modifies env
    ensures OnlyNegotiationChanged(old(env.L()), env.L()) && env.L().safe
    ensures env.L().open == old(env.L().open) && env.L().closeFailures == old(env.L().closeFailures)
    ensures env.L().link.login == old(env.L().link.login)
    ensures ok <==> !env.L().link.failed
    ensures ok ==> transport in env.L().link.authenticated
  {
    hide Advance, Fold;
    var reply := env.PerformLink(Operation.IsAuthenticated(transport));
    return !reply.raised && reply.flag;
  }

  /** `open_session` of the transport. */
  method RequestChannel(env: Environment, transport: nat) returns (channel: Option<nat>)
    requires env.L().safe && Transport(transport) in env.L().open && transport in env.L().link.authenticated
    requires !env.L().link.failed
    modifies env
    ensures OnlyNegotiationChanged(old(env.L()), env.L()) && env.L().safe
    ensures env.L().closeFailures == old(env.L().closeFailures)
    ensures env.L().link == old(env.L().link).(failed := channel.None?)
    ensures env.L().open == old(env.L().open) + (if channel.Some? then {Channel(channel.value)} else {})
  {
    hide Advance, Fold;
    var id := |env.trace|;
    var reply := env.PerformLink(Operation.OpenChannel(transport));
    return if reply.raised then None else Some(id);
  }

  method GetPty(env: Environment, channel: nat) returns (ok: bool)
    requires env.L().safe && Channel(channel) in env.L().open && !env.L().link.failed
    modifies env
    ensures env.L() == old(env.L()).(link := env.L().link)
    ensures env.L().link == old(env.L().link).(ptys := env.L().link.ptys, failed := !ok)
    ensures ok ==> channel in env.L().link.ptys
  {
    hide Advance, Fold;
    var reply := env.PerformLink(Operation.GetPty(channel));
    return !reply.raised;
  }

  method InvokeShell(env: Environment, channel: nat) returns (ok: bool)
    requires env.L().safe && Channel(channel) in env.L().open && !env.L().link.failed
    requires channel in env.L().link.ptys
    modifies env
    ensures env.L() == old(env.L()).(link := env.L().link)
    ensures env.L().link == old(env.L().link).(shells := env.L().link.shells, failed := !ok)
    ensures ok ==> channel in env.L().link.shells
  {
    hide Advance, Fold;
    var reply := env.PerformLink(Operation.InvokeShell(channel));
    return !reply.raised;
  }

  // ---------------------------------------------------------------- the connection

  /** `VerifiedSshConnection`: owns a transport and its socket. */
  class VerifiedSshConnection {
    const transport: nat
    const socket: nat
    var closed: bool

    constructor (transport: nat, socket: nat)
      ensures !closed && this.transport == transport && this.socket == socket
    {
      this.transport := transport;
      this.socket := socket;
      closed := false;
    }

    ghost function Owned(): set<Resource>
    {
      {Transport(transport), Socket(socket)}
    }

    /**
      * Both resources get their close attempt, the transport before its socket, even when the first one
      * raises; a second call does nothing.
      */
    method Close(env: Environment) returns (raised: bool, ghost failed: set<Resource>)
      requires !closed ==> env.L().safe && env.L().open == Owned()
      modifies this, env
      ensures closed
      ensures old(closed) ==> !raised && env.trace == old(env.trace)
      ensures !old(closed) ==>
                && failed <= Owned() && (raised <==> failed != {})
                && ClosedExactly(old(env.L()), env.L(), Owned(), failed)
    {
      hide Advance, Permitted, Fold;
      if closed {
        return false, {};
      }
      ghost var before := env.L();
      closed := true;
      var first := AttemptClose(env, Transport(transport));
      var second := AttemptClose(env, Socket(socket));
      raised := first || second;
      failed := (if first then {Transport(transport)} else {}) + (if second then {Socket(socket)} else {});
      assert before.open - {Transport(transport)} - {Socket(socket)} == before.open - Owned();
      assert env.L().closeFailures == before.closeFailures + failed;
    }

    /** `_open_session_channel`. */
    method OpenSessionChannel(env: Environment) returns (channel: Option<nat>)
      requires !closed && env.L().safe && !env.L().link.failed
      requires Transport(transport) in env.L().open && transport in env.L().link.authenticated
      modifies env
      ensures OnlyNegotiationChanged(old(env.L()), env.L()) && env.L().safe
      ensures env.L().closeFailures == old(env.L().closeFailures)
      ensures env.L().link == old(env.L().link).(failed := channel.None?)
      ensures env.L().open == old(env.L().open) + (if channel.Some? then {Channel(channel.value)} else {})
    {
      channel := RequestChannel(env, transport);
    }
  }

  /** `_close_resources`: every attempt is made and every exception swallowed. */
  method CloseResources(env: Environment, transport: Option<nat>, socket: nat)
    requires env.L().safe
    requires env.L().open == {Socket(socket)} + (if transport.Some? then {Transport(transport.value)} else {})
    modifies env
    ensures OnlyCloses(old(env.L()), env.L()) && env.L().open == {}
  {
    hide Advance, Permitted, Fold;
    if transport.Some? {
      var _ := AttemptClose(env, Transport(transport.value));
    }
    var _ := AttemptClose(env, Socket(socket));
  }

  /** If anything was sent, it is this account's name and this credential's text. */
  ghost predicate LoginIs(k: LinkLedger, account: Config.Account, credential: Bytes) {
    k.login.Some? ==>
      Utf8.Decode(credential).Some? && k.login.value == (account.username, Utf8.Decode(credential).value)
  }

  /** `_authenticate`: succeeds exactly when the credential decodes, nothing raises and the server agrees. */
  method Authenticate(env: Environment, transport: nat, account: Config.Account, credential: Bytes)
    returns (ok: bool)
    requires Unauthenticated(env.L()) && !env.L().link.failed && env.L().ports.credential == Some(credential)
    requires Transport(transport) in env.L().open && transport in env.L().link.keyMatched
    modifies env
    ensures OnlyNegotiationChanged(old(env.L()), env.L())
    ensures env.L().open == old(env.L().open) && env.L().closeFailures == {}
    ensures ok <==> Utf8.Decode(credential).Some? && !env.L().link.failed
    ensures ok ==> transport in env.L().link.authenticated && env.L().link.login.Some?
    ensures LoginIs(env.L().link, account, credential)
    ensures Utf8.Decode(credential).None? ==> env.trace == old(env.trace)
  {
    hide Advance, Permitted, Fold, Utf8.Decode;
    var password := Utf8.Decode(credential);
    if password.None? {
      return false;
    }
    ok := AuthPassword(env, transport, account.username, password.value);
    if ok {
      ok := IsAuthenticated(env, transport);
    }
  }

  /** A connection to this target failed: some step of it did, or the credential is not text. */
  ghost predicate ConnectionRefused(l: Ledger) {
    l.link.failed || (l.link.dialled.Some? && l.ports.credential.Some? && Utf8.Decode(l.ports.credential.value).None?)
  }

  /** `ParamikoSshConnector.connect`: null stands for any of its exceptions. */
  method Connect(env: Environment, target: Config.Target, account: Config.Account, credential: Bytes)
    returns (connection: VerifiedSshConnection?)
    requires ReadyToConnect(env.L()) && env.L().ports.credential == Some(credential)
    modifies env
    ensures OnlyConnectionChanged(old(env.L()), env.L()) && env.L().safe
    ensures env.L().link.dialled == Some(target) && LoginIs(env.L().link, account, credential)
    ensures connection == null <==> ConnectionRefused(env.L())
    ensures connection == null ==> env.L().open == {}
    ensures connection != null ==>
              && fresh(connection) && !connection.closed
              && env.L().open == connection.Owned() && env.L().closeFailures == {}
              && connection.transport in env.L().link.authenticated && env.L().link.login.Some?
  {
    hide Advance, Permitted, Fold, Fingerprint.PinMatches, Committed, Utf8.Decode;
    connection := null;
    var socket := ConnectSocket(env, target);
    if socket.None? {
      return;
    }
    var transport := CreateTransport(env, socket.value, target.expectedHostKey);
    if transport.None? {
      CloseResources(env, None, socket.value);
      return;
    }
    var started := StartClient(env, transport.value);
    if !started {
      CloseResources(env, transport, socket.value);
      return;
    }
    var serverKey := GetServerKey(env, transport.value, target.expectedHostKey);
    if serverKey.None? {
      CloseResources(env, transport, socket.value);
      return;
    }
    if !Fingerprint.PinMatches(env.sha256, target.expectedHostKey, serverKey.value) {
      CloseResources(env, transport, socket.value);
      return;
    }
    var ok := Authenticate(env, transport.value, account, credential);
    if !ok {
      CloseResources(env, transport, socket.value);
      return;
    }
    connection := new VerifiedSshConnection(transport.value, socket.value);
  }

  // ---------------------------------------------------------------- the interactive channel

  /** `InteractiveSshChannel`: owns a raw channel. */
  class InteractiveSshChannel {
    const channel: nat
    var closed: bool

    constructor (channel: nat)
      ensures !closed && this.channel == channel
    {
      this.channel := channel;
      closed := false;
    }

    /** `is_closed`: the raw channel is asked only while the wrapper is open. */
    method IsClosed(env: Environment) returns (answer: bool)
      requires !closed ==>
                 && env.L().safe && Channel(channel) in env.L().open && channel in env.L().link.shells
                 && Relaying(env.L()) && Served(env.L().relay)
      modifies env
      ensures closed ==> answer && env.trace == old(env.trace)
      ensures !closed ==> env.L() == old(env.L()).(relay := old(env.L().relay).(ended := answer))
    {
      hide Advance, Fold;
      if closed {
        return true;
      }
      var reply := env.PerformRelay(Operation.ChannelFlag(channel));
      return reply.flag;
    }

    /** The raw channel gets one close attempt, which may raise; a second call does nothing. */
    method Close(env: Environment) returns (raised: bool)
      requires !closed ==> env.L().safe && Channel(channel) in env.L().open
      modifies this, env
      ensures closed
      ensures old(closed) ==> !raised && env.trace == old(env.trace)
      ensures !old(closed) ==>
                ClosedExactly(old(env.L()), env.L(), {Channel(channel)}, if raised then {Channel(channel)} else {})
    {
      hide Advance, Permitted, Fold;
      if closed {
        return false;
      }
      closed := true;
      raised := AttemptClose(env, Channel(channel));
    }
  }

  /** `_close_partial_channel`: the exception of the attempt is swallowed. */
  method ClosePartialChannel(env: Environment, channel: nat)
    requires env.L().safe && Channel(channel) in env.L().open
    modifies env
    ensures OnlyCloses(old(env.L()), env.L()) && env.L().open == old(env.L().open) - {Channel(channel)}
  {
    hide Advance, Permitted, Fold;
    var _ := AttemptClose(env, Channel(channel));
  }

  /**
    * `InteractiveSshChannel.open`: a session channel, then a PTY, then a shell; null stands for
    * `SshChannelError`, and comes exactly when one of the three requests raised.
    */
  method OpenInteractive(env: Environment, connection: VerifiedSshConnection)
    returns (channel: InteractiveSshChannel?)
    requires !connection.closed && env.L().safe && !env.L().link.failed
    requires env.L().open == connection.Owned() && connection.transport in env.L().link.authenticated
    modifies env
    ensures OnlyNegotiationChanged(old(env.L()), env.L()) && env.L().safe
    ensures env.L().link.login == old(env.L().link.login)
    ensures channel == null <==> env.L().link.failed
    ensures channel == null ==> env.L().open == connection.Owned()
    ensures channel != null ==>
              && fresh(channel) && !channel.closed && channel.channel in env.L().link.shells
              && env.L().open == connection.Owned() + {Channel(channel.channel)}
              && env.L().closeFailures == old(env.L().closeFailures)
  {
    hide Advance, Permitted, Fold;
    channel := null;
    var raw := connection.OpenSessionChannel(env);
    if raw.None? {
      return;
    }
    var pty := GetPty(env, raw.value);
    if !pty {
      ClosePartialChannel(env, raw.value);
      return;
    }
    var shell := InvokeShell(env, raw.value);
    if !shell {
      ClosePartialChannel(env, raw.value);
      return;
    }
    channel := new InteractiveSshChannel(raw.value);
  }
}
