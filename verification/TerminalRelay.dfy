/**
  * src/infrastructure/ssh/terminal_relay.py and the partial-write loop of
  * src/infrastructure/terminal/local_terminal_io.py.
  *
  * The relay may go round for ever if its clock stands still, so it is observed for `horizon`
  * turns: whatever holds at every horizon holds of every finite part of every run.
  */
module TerminalRelay {
  import opened Basics
  import opened AuditEvents
  import opened Effects
  import opened SshStack

  const MAX_BYTES: nat := 32768

  datatype RelayOutcome = COMPLETED | MAX_DURATION_EXCEEDED

  /** The relay returns an outcome, raises, or is still running when the observation ends. */
  datatype RelayResult = Returned(outcome: RelayOutcome) | Raised | StillRunning

  /** What one turn of the loop decides. */
  datatype Step = Again | Finish(outcome: RelayOutcome) | Error

  /** What the calls so far decide: an exception, a late reading, an end of file, or nothing yet. */
  ghost function Decision(r: RelayLedger): Step {
    if r.faulted then Error
    else if r.expired then Finish(MAX_DURATION_EXCEEDED)
    else if r.ended then Finish(COMPLETED)
    else Again
  }

  /** How a relay ends: whether a call of it or its channel's close raised, a reading was late, an end came. */
  ghost function Verdict(raised: bool, late: bool, ended: bool): RelayResult {
    if raised then Raised
    else if late then Returned(MAX_DURATION_EXCEEDED)
    else if ended then Returned(COMPLETED)
    else StillRunning
  }

  /** The channel can be used, by a session that the log already calls active. */
  ghost predicate Usable(l: Ledger, channel: nat) {
    l.safe && Channel(channel) in l.open && channel in l.link.shells && Committed(l.events, SESSION_ACTIVE)
  }

  /** `out` follows `all`, short by at most part of its last piece. */
  ghost predicate ShortByPartOf(out: Bytes, all: Bytes, last: Bytes) {
    && out <= all
    && |last| <= |all| && all[|all| - |last|..] == last
    && |all| - |last| <= |out|
  }

  /** What a failed turn can leave behind: at most part of one piece is missing, in one direction. */
  ghost predicate NearlyBalanced(r: RelayLedger) {
    || Balanced(r)
    || (ShortByPartOf(r.written, r.received, r.lastReceived) && r.sent == r.readLocally)
    || (r.written == r.received && ShortByPartOf(r.sent, r.readLocally, r.lastReadLocally))
  }

  ghost predicate SameClock(before: RelayLedger, after: RelayLedger) {
    && after.start == before.start && after.deadline == before.deadline && after.expired == before.expired
    && after.waiting == before.waiting && after.inTime == before.inTime && after.waits == before.waits
    && after.lastReading == before.lastReading && after.steady == before.steady
  }

  /** Only the relay's part of the ledger moves. */
  ghost predicate OnlyRelayChanged(before: Ledger, after: Ledger) {
    after == before.(relay := after.relay)
  }

  // ---------------------------------------------------------------- single calls

  /** Nothing happened but that the written bytes are now `out`, and perhaps that a write failed. */
  ghost predicate Wrote(before: Ledger, after: Ledger, out: Bytes, failed: bool) {
    after == before.(relay := before.relay.(written := out, faulted := before.relay.faulted || failed))
  }

  lemma WroteMore(a: Ledger, b: Ledger, c: Ledger, x: Bytes, y: Bytes, failed: bool)
    requires Wrote(a, b, x, false) && Wrote(b, c, y, failed)
    ensures Wrote(a, c, y, failed)
  {
  }

  lemma WroteMayMove(before: Ledger, after: Ledger, out: Bytes)
    requires Wrote(before, after, out, false)
    ensures after.safe == before.safe && MayMove(after) == MayMove(before)
    ensures after.relay.written == out && after.relay.received == before.relay.received
  {
  }

  lemma WroteNothing(l: Ledger)
    ensures Wrote(l, l, l.relay.written, false)
  {
  }

  /** `os.write`: how many bytes it took, unless it raised. */
  method Write(env: Environment, data: Bytes) returns (taken: Option<nat>)
    requires env.L().safe && MayMove(env.L()) && data != []
    requires env.L().relay.written + data == env.L().relay.received
    modifies env
    ensures taken.None? ==> Wrote(old(env.L()), env.L(), old(env.L().relay.written), true)
    ensures taken.Some? ==>
              && taken.value <= |data|
              && Wrote(old(env.L()), env.L(), old(env.L().relay.written) + data[..taken.value], taken.value == 0)
  {
    hide Advance, Fold;
    var reply := env.PerformRelay(Operation.WriteOutput(data));
    return if reply.raised then None else Some(Taken(data, reply.number));
  }

  method Receive(env: Environment, channel: nat, maxBytes: nat) returns (data: Option<Bytes>)
    requires Usable(env.L(), channel) && MayMove(env.L()) && Balanced(env.L().relay) && env.L().relay.remoteReady
    requires 0 < maxBytes
    modifies env
    ensures OnlyRelayChanged(old(env.L()), env.L())
    ensures data.None? ==>
              env.L().relay == old(env.L().relay).(
                remoteReady := false, asked := old(env.L().relay.asked) + {maxBytes}, faulted := true)
    ensures data.Some? ==>
              env.L().relay == old(env.L().relay).(
                received := old(env.L().relay.received) + data.value, lastReceived := data.value,
                remoteReady := false, asked := old(env.L().relay.asked) + {maxBytes}, ended := data.value == [])
  {
    hide Advance, Fold;
    var reply := env.PerformRelay(Operation.Receive(channel, maxBytes));
    return if reply.raised then None else Some(Chunk(reply.data, maxBytes));
  }

  method ReadInput(env: Environment, maxBytes: nat) returns (data: Option<Bytes>)
    requires env.L().safe && MayMove(env.L()) && Balanced(env.L().relay)
    requires env.L().relay.localReady && !env.L().relay.remoteReady && 0 < maxBytes
    modifies env
    ensures OnlyRelayChanged(old(env.L()), env.L())
    ensures data.None? ==>
              env.L().relay == old(env.L().relay).(
                localReady := false, asked := old(env.L().relay.asked) + {maxBytes}, faulted := true)
    ensures data.Some? ==>
              env.L().relay == old(env.L().relay).(
                readLocally := old(env.L().relay.readLocally) + data.value, lastReadLocally := data.value,
                localReady := false, asked := old(env.L().relay.asked) + {maxBytes}, ended := data.value == [])
  {
    hide Advance, Fold;
    var reply := env.PerformRelay(Operation.ReadInput(maxBytes));
    return if reply.raised then None else Some(Chunk(reply.data, maxBytes));
  }

  /** `sendall`: everything, or an exception after some part of it. */
  method Send(env: Environment, channel: nat, data: Bytes) returns (ok: bool, ghost n: nat)
    requires Usable(env.L(), channel) && MayMove(env.L())
    requires env.L().relay.sent + data == env.L().relay.readLocally
    modifies env
    ensures n <= |data| && (ok ==> n == |data|)
    ensures OnlyRelayChanged(old(env.L()), env.L())
    ensures env.L().relay == old(env.L().relay).(
              sent := old(env.L().relay.sent) + data[..n], faulted := !ok)
  {
    hide Advance, Fold;
    var reply := env.PerformRelay(Operation.Send(channel, data));
    n := if reply.raised then Taken(data, reply.number) else |data|;
    assert data[..|data|] == data;
    ok := !reply.raised;
  }

  method StartClock(env: Environment, duration: int) returns (deadline: int)
    requires env.L().safe && env.L().relay == NO_RELAY && Committed(env.L().events, SESSION_ACTIVE)
    modifies env
    ensures OnlyRelayChanged(old(env.L()), env.L())
    ensures env.L().relay == NO_RELAY.(
              start := deadline - duration, deadline := Some(deadline), now := deadline - duration,
              lastReading := deadline - duration)
  {
    hide Advance, Fold, Committed;
    var reply := env.PerformRelay(Operation.StartClock(duration));
    return reply.number + duration;
  }

  method ReadClock(env: Environment) returns (now: int)
    requires env.L().safe && env.L().relay.deadline.Some?
    requires env.L().relay.waiting || Served(env.L().relay)
    modifies env
    ensures OnlyRelayChanged(old(env.L()), env.L())
    ensures env.L().relay == TakeReading(old(env.L().relay), now)
  {
    hide Advance, Fold;
    var reply := env.PerformRelay(Operation.ReadClock);
    return reply.number;
  }

  /** `select`: which of the two ends is readable, unless it raises. */
  method Select(env: Environment, remaining: int) returns (raised: bool, channelReady: bool, terminalReady: bool)
    requires env.L().safe && Relaying(env.L()) && Served(env.L().relay)
    requires 0 < remaining && env.L().relay.now + remaining == env.L().relay.deadline.value
    modifies env
    ensures OnlyRelayChanged(old(env.L()), env.L())
    ensures env.L().relay == old(env.L().relay).(
              waiting := true, inTime := false, waits := old(env.L().relay.waits) + 1,
              remoteReady := !raised && channelReady, localReady := !raised && terminalReady, faulted := raised)
  {
    hide Advance, Fold, Committed;
    var reply := env.PerformRelay(Operation.Select(remaining));
    return reply.raised, reply.flag, reply.otherFlag;
  }

  // ---------------------------------------------------------------- moving data

  lemma NextPiece(out: Bytes, data: Bytes, n: nat, taken: nat)
    requires n + taken <= |data|
    ensures out + data[..n] + data[n..][..taken] == out + data[..n + taken]
    ensures data[n..][taken..] == data[n + taken..]
    ensures out + data[..n] + data[n..] == out + data
    ensures taken == 0 ==> out + data[..0] == out
  {
  }

  /**
    * `write_output`: writes until everything is out. It gives up exactly when a write raises or
    * takes nothing, which the ledger shows as a fault.
    */
  method WriteOutput(env: Environment, data: Bytes) returns (ok: bool, ghost n: nat)
    requires env.L().safe && MayMove(env.L())
    requires env.L().relay.written + data == env.L().relay.received
    modifies env
    ensures n <= |data| && (ok <==> n == |data|)
    ensures Wrote(old(env.L()), env.L(), old(env.L().relay.written) + data[..n], !ok)
  {
    hide Advance, Permitted, Fold, AdvanceRelay, Taken, MayMove, Wrote;
    ghost var before, out := env.L(), env.L().relay.written;
    var remaining := data;
    n := 0;
    NextPiece(out, data, 0, 0);
    WroteNothing(before);
    while remaining != []
      invariant 0 <= n <= |data| && remaining == data[n..] && out == before.relay.written + data[..n]
      invariant Wrote(before, env.L(), out, false)
      decreases |remaining|
    {
      WroteMayMove(before, env.L(), out);
      ghost var now := env.L();
      NextPiece(before.relay.written, data, n, 0);
      var written := Write(env, remaining);
      if written.None? {
        WroteMore(before, now, env.L(), out, out, true);
        return false, n;
      }
      NextPiece(before.relay.written, data, n, written.value);
      WroteMore(before, now, env.L(), out, out + remaining[..written.value], written.value == 0);
      out := out + remaining[..written.value];
      n := n + written.value;
      if written.value == 0 {
        return false, n;
      }
      remaining := remaining[written.value..];
    }
    return true, n;
  }

  lemma PieceMissing(out: Bytes, all: Bytes, piece: Bytes, n: nat)
    requires n <= |piece| && out == all
    ensures ShortByPartOf(out + piece[..n], all + piece, piece)
  {
  }

  /** What half a turn leaves: a step that the ledger explains, and at most one piece in flight. */
  ghost predicate HalfTurn(before: Ledger, after: Ledger, maxBytes: nat, step: Step) {
    && after.relay.asked <= before.relay.asked + {maxBytes}
    && OnlyRelayChanged(before, after) && SameClock(before.relay, after.relay)
    && step == Decision(after.relay)
    && (step != Error ==> Balanced(after.relay))
    && NearlyBalanced(after.relay)
  }

  /** The remote half of a turn. */
  method RelayRemote(env: Environment, channel: InteractiveSshChannel, maxBytes: nat) returns (step: Step)
    requires Usable(env.L(), channel.channel) && MayMove(env.L()) && Balanced(env.L().relay)
    requires env.L().relay.remoteReady && 0 < maxBytes
    modifies env
    ensures HalfTurn(old(env.L()), env.L(), maxBytes, step)
    ensures !env.L().relay.remoteReady && env.L().relay.localReady == old(env.L().relay.localReady)
  {
    hide Advance, Permitted, Fold, Committed;
    ghost var before := env.L().relay;
    var data := Receive(env, channel.channel, maxBytes);
    if data.None? {
      return Error;
    }
    if data.value == [] {
      return Finish(COMPLETED);
    }
    var ok, n := WriteOutput(env, data.value);
    if !ok {
      PieceMissing(before.written, before.received, data.value, n);
      return Error;
    }
    assert data.value[..|data.value|] == data.value;
    return Again;
  }

  /** The local half of a turn. */
  method RelayLocal(env: Environment, channel: InteractiveSshChannel, maxBytes: nat) returns (step: Step)
    requires Usable(env.L(), channel.channel) && MayMove(env.L()) && Balanced(env.L().relay)
    requires env.L().relay.localReady && !env.L().relay.remoteReady && 0 < maxBytes
    modifies env
    ensures HalfTurn(old(env.L()), env.L(), maxBytes, step)
    ensures Served(env.L().relay)
  {
    hide Advance, Permitted, Fold, Committed;
    ghost var before := env.L().relay;
    var data := ReadInput(env, maxBytes);
    if data.None? {
      return Error;
    }
    if data.value == [] {
      return Finish(COMPLETED);
    }
    var ok, n := Send(env, channel.channel, data.value);
    if !ok {
      PieceMissing(before.sent, before.readLocally, data.value, n);
      return Error;
    }
    assert data.value[..|data.value|] == data.value;
    return Again;
  }

  // ---------------------------------------------------------------- the loop

  /** Between turns: the deadline stands where it was set, nothing has stopped the relay, nothing is in flight. */
  ghost predicate BetweenTurns(r: RelayLedger, duration: int, turns: nat) {
    && r.deadline == Some(r.start + duration) && Decision(r) == Again
    && Balanced(r) && Served(r) && !r.waiting
    && r.waits == turns && r.lastReading < r.start + duration
    && (r.steady ==> r.start + turns <= r.lastReading)
  }

  datatype Wait = TooLate | SelectRaised | Ready(channel: bool, terminal: bool)

  /** The first half of a turn: a reading, the wait, and a reading after it. */
  method AwaitReadiness(env: Environment, ghost duration: int, deadline: int, ghost turns: nat)
    returns (wait: Wait)
    requires env.L().safe && BetweenTurns(env.L().relay, duration, turns) && Relaying(env.L())
    requires env.L().relay.deadline == Some(deadline)
    modifies env
    ensures OnlyRelayChanged(old(env.L()), env.L()) && SameBytes(old(env.L().relay), env.L().relay)
    ensures env.L().relay.start == old(env.L().relay.start) && env.L().relay.deadline == Some(deadline)
    ensures !env.L().relay.ended && env.L().relay.asked == old(env.L().relay.asked)
    ensures wait.TooLate? <==> env.L().relay.expired
    ensures wait.SelectRaised? <==> env.L().relay.faulted
    ensures wait.Ready? ==>
              var r := env.L().relay;
              && r.inTime && r.remoteReady == wait.channel && r.localReady == wait.terminal
              && BetweenTurns(r.(remoteReady := false, localReady := false), duration, turns + 1)
  {
    hide Advance, Permitted, Fold, Committed;
    var now := ReadClock(env);
    var remaining := deadline - now;
    if remaining <= 0 {
      return TooLate;
    }
    var raised, channelReady, terminalReady := Select(env, remaining);
    if raised {
      return SelectRaised;
    }
    now := ReadClock(env);
    if now >= deadline {
      return TooLate;
    }
    return Ready(channelReady, terminalReady);
  }

  lemma BalancedIsNearlyBalanced(r: RelayLedger)
    requires Balanced(r)
    ensures NearlyBalanced(r)
  {
  }

  /** The second half: the remote end first, then the local one; each exactly when it is readable. */
  method MoveReady(env: Environment, channel: InteractiveSshChannel, maxBytes: nat, wait: Wait) returns (step: Step)
    requires wait.Ready? && 0 < maxBytes
    requires wait.channel == env.L().relay.remoteReady && wait.terminal == env.L().relay.localReady
    requires Usable(env.L(), channel.channel) && MayMove(env.L()) && Balanced(env.L().relay)
    modifies env
    ensures HalfTurn(old(env.L()), env.L(), maxBytes, step)
    ensures step == Again ==> Served(env.L().relay)
  {
    hide Advance, Permitted, Fold, Committed, Balanced, NearlyBalanced;
    BalancedIsNearlyBalanced(env.L().relay);
    step := Again;
    if wait.channel {
      step := RelayRemote(env, channel, maxBytes);
      if step != Again {
        return;
      }
    }
    if wait.terminal {
      step := RelayLocal(env, channel, maxBytes);
    }
  }

  /** One turn of the loop. */
  method Turn(env: Environment, channel: InteractiveSshChannel, maxBytes: nat, ghost duration: int,
              deadline: int, ghost turns: nat)
    returns (step: Step)
    requires !channel.closed && Usable(env.L(), channel.channel) && 0 < maxBytes
    requires BetweenTurns(env.L().relay, duration, turns)
    requires env.L().relay.deadline == Some(deadline)
    modifies env
    ensures OnlyRelayChanged(old(env.L()), env.L())
    ensures env.L().relay.start == old(env.L().relay.start) && env.L().relay.deadline == Some(deadline)
    ensures env.L().relay.asked <= old(env.L().relay.asked) + {maxBytes}
    ensures step == Decision(env.L().relay)
    ensures step == Again ==> BetweenTurns(env.L().relay, duration, turns + 1)
    ensures step != Error ==> Balanced(env.L().relay)
    ensures NearlyBalanced(env.L().relay)
  {
    hide Advance, Permitted, Fold, Committed, NearlyBalanced;
    BalancedIsNearlyBalanced(env.L().relay);
    var closed := channel.IsClosed(env);
    BalancedIsNearlyBalanced(env.L().relay);
    if closed {
      return Finish(COMPLETED);
    }
    var wait := AwaitReadiness(env, duration, deadline, turns);
    BalancedIsNearlyBalanced(env.L().relay);
    match wait
    case TooLate => return Finish(MAX_DURATION_EXCEEDED);
    case SelectRaised => return Error;
    case Ready(_, _) => step := MoveReady(env, channel, maxBytes, wait);
  }

  /**
    * `relay_terminal`, observed for `horizon` turns. It raises exactly when a call of it raised, a
    * write made no progress or closing the channel raised; otherwise it returns
    * MAX_DURATION_EXCEEDED exactly when a reading was at or past the deadline, which is fixed at
    * the start, and COMPLETED exactly when an end was found closed or at its end of file. Unless a call
    * raised, both directions are balanced. If the clock advances by a tick a turn, a horizon of
    * `duration` turns is enough for the loop to end.
    */
  method RelayTerminal(env: Environment, channel: InteractiveSshChannel, duration: int, maxBytes: nat, horizon: nat)
    returns (result: RelayResult)
    requires !channel.closed && Usable(env.L(), channel.channel) && env.L().relay == NO_RELAY
    requires Channel(channel.channel) !in env.L().closeFailures && 0 < maxBytes
    modifies env, channel
    ensures env.L().safe
    ensures var before, after := old(env.L()), env.L();
            after == before.(relay := after.relay, open := after.open, closeFailures := after.closeFailures)
    ensures duration <= 0 ==> result == Raised && env.trace == old(env.trace)
    ensures duration > 0 ==> env.L().relay.deadline == Some(env.L().relay.start + duration)
    ensures duration > 0 ==>
              var r, unclosed := env.L().relay, Channel(channel.channel) in env.L().closeFailures;
              result == Verdict(r.faulted || unclosed, r.expired, r.ended)
    ensures env.L().relay.asked <= {maxBytes}
    ensures !env.L().relay.faulted ==> Balanced(env.L().relay)
    ensures NearlyBalanced(env.L().relay)
    ensures result == StillRunning ==> env.L().relay.waits == horizon
    ensures duration > 0 && env.L().relay.steady && horizon >= duration ==> result != StillRunning
    ensures channel.closed <==> result != StillRunning && duration > 0
    ensures channel.closed ==>
              && env.L().open == old(env.L().open) - {Channel(channel.channel)}
              && env.L().closeFailures <= old(env.L().closeFailures) + {Channel(channel.channel)}
    ensures !channel.closed ==>
              env.L().open == old(env.L().open) && env.L().closeFailures == old(env.L().closeFailures)
  {
    hide Advance, Permitted, Fold, Committed;
    if duration <= 0 {
      return Raised;
    }
    ghost var before := env.L();
    var deadline := StartClock(env, duration);
    var step := Again;
    var turns := 0;
    while turns < horizon && step == Again
      invariant !channel.closed && OnlyRelayChanged(before, env.L())
      invariant env.L().relay.deadline == Some(deadline) && deadline == env.L().relay.start + duration
      invariant step == Decision(env.L().relay) && env.L().relay.asked <= {maxBytes}
      invariant step == Again ==> BetweenTurns(env.L().relay, duration, turns)
      invariant step != Error ==> Balanced(env.L().relay)
      invariant NearlyBalanced(env.L().relay)
      invariant 0 <= turns <= horizon
      decreases horizon - turns
    {
      step := Turn(env, channel, maxBytes, duration, deadline, turns);
      turns := turns + 1;
    }
    if step == Again {
      return StillRunning;
    }
    var raised := channel.Close(env);
    if raised || step == Error {
      return Raised;
    }
    return Returned(step.outcome);
  }
}
