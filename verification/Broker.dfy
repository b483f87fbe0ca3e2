/** src/infrastructure/ssh/paramiko_session_broker.py: opening, relaying and closing a brokered session. */
module Broker {
  import opened Basics
  import opened AuditEvents
  import opened Effects
  import opened SshStack
  import opened TerminalRelay
  import Config
  import Utf8

  /** Some attempt to close a transport or a socket raised. */
  ghost predicate ConnectionCloseFailed(l: Ledger) {
    exists r :: r in l.closeFailures && !r.Channel?
  }

  /** Some attempt to close a raw channel raised. */
  ghost predicate ChannelCloseFailed(l: Ledger) {
    exists r :: r in l.closeFailures && r.Channel?
  }

  class ParamikoBrokeredSession {
    const connection: VerifiedSshConnection
    const channel: InteractiveSshChannel
    var closed: bool

    constructor (connection: VerifiedSshConnection, channel: InteractiveSshChannel)
      ensures !closed && this.connection == connection && this.channel == channel
    {
      this.connection := connection;
      this.channel := channel;
      closed := false;
    }

    /** Nothing is closed yet that the ledger calls open, and the other way round. */
    ghost predicate Holds(l: Ledger)
      reads this, connection, channel
    {
      && !closed && !connection.closed && l.safe
      && l.open == connection.Owned() + (if channel.closed then {} else {Channel(channel.channel)})
      && l.closeFailures <= if channel.closed then {Channel(channel.channel)} else {}
    }

    method Relay(env: Environment, duration: int, horizon: nat) returns (result: RelayResult)
      requires Holds(env.L()) && !channel.closed
      requires channel.channel in env.L().link.shells && Committed(env.L().events, SESSION_ACTIVE)
      requires env.L().relay == NO_RELAY && env.L().closeFailures == {} && duration > 0
      modifies env, channel
      ensures Holds(env.L())
      ensures var before, after := old(env.L()), env.L();
              after == before.(relay := after.relay, open := after.open, closeFailures := after.closeFailures)
      ensures env.L().relay.deadline == Some(env.L().relay.start + duration)
      ensures var r := env.L().relay;
              result == Verdict(r.faulted || ChannelCloseFailed(env.L()), r.expired, r.ended)
      ensures env.L().relay.asked <= {32768}
      ensures !env.L().relay.faulted ==> Balanced(env.L().relay)
      ensures NearlyBalanced(env.L().relay)
      ensures result == StillRunning ==> env.L().relay.waits == horizon && env.L().closeFailures == {}
      ensures env.L().relay.steady && horizon >= duration ==> result != StillRunning
      ensures channel.closed <==> result != StillRunning
    {
      hide Advance, Permitted, Fold, Committed, NearlyBalanced, Balanced;
      if closed {
        return Raised;
      }
      result := RelayTerminal(env, channel, duration, MAX_BYTES, horizon);
      assert Channel(channel.channel) in env.L().closeFailures ==> ChannelCloseFailed(env.L());
    }

    /** The channel first, then the connection whatever the channel's close did. */
    method Close(env: Environment) returns (raised: bool)
      requires Holds(env.L())
      modifies this, connection, channel, env
      ensures closed
      ensures var before, after := old(env.L()), env.L();
              after == before.(open := {}, closeFailures := after.closeFailures)
      ensures raised <==> env.L().closeFailures != old(env.L().closeFailures)
      ensures old(channel.closed) ==>
                && (raised <==> ConnectionCloseFailed(env.L()))
                && (ChannelCloseFailed(env.L()) <==> ChannelCloseFailed(old(env.L())))
    {
      hide Advance, Permitted, Fold;
      if closed {
        return false;
      }
      closed := true;
      ghost var before := env.L();
      var first := channel.Close(env);
      assert env.L().open == connection.Owned();
      var second, failed := connection.Close(env);
      raised := first || second;
      assert env.L().open == {};
      if failed != {} {
        var r :| r in failed;
        assert r in env.L().closeFailures && !r.Channel? && r !in before.closeFailures;
      }
      assert old(channel.closed) ==> env.L().closeFailures == before.closeFailures + failed;
    }
  }

  /**
    * `ParamikoSessionBroker.open_session`: null stands for any exception, and comes exactly when
    * connecting or opening failed.
    */
  method OpenSession(env: Environment, target: Config.Target, account: Config.Account, credential: Bytes)
    returns (session: ParamikoBrokeredSession?)
    requires ReadyToConnect(env.L()) && env.L().ports.credential == Some(credential)
    modifies env
    ensures OnlyConnectionChanged(old(env.L()), env.L()) && env.L().safe
    ensures env.L().link.dialled == Some(target) && LoginIs(env.L().link, account, credential)
    ensures session == null <==> ConnectionRefused(env.L())
    ensures session == null ==> env.L().open == {}
    ensures session != null ==>
              && fresh(session) && fresh(session.connection) && fresh(session.channel)
              && session.Holds(env.L()) && !session.channel.closed
              && session.channel.channel in env.L().link.shells && env.L().closeFailures == {}
              && env.L().link.login.Some?
  {
    hide Advance, Permitted, Fold, Committed, Utf8.Decode;
    session := null;
    var connection := Connect(env, target, account, credential);
    if connection == null {
      return;
    }
    var channel := OpenInteractive(env, connection);
    if channel == null {
      var _, _ := connection.Close(env);
      return;
    }
    session := new ParamikoBrokeredSession(connection, channel);
  }
}
