/** The Node agent object on top of its secure transport. */
module NodeClient {
  import opened Wrappers
  import opened Words
  import opened VlpFrame
  import opened SecureWire
  import opened NodeTransport
  import M = BeatMachine
  import T = SecureTransport
  import K = NodeStack

  class Varta {
    const transport: SecureUdpTransport
    const buf: array<u8>
    var startNs: int
    var nonce: u64
    var consecutiveDropped: nat
    var reconnectAfter: nat
    var lastTimestamp: u64
    var clockRegressions: u64
    var connectPid: u32
    var forkRecoveries: u64
    var closed: bool
    ghost const secret: T.Secret
    ghost const salt: T.Salt
    ghost const firstPid: u32
    ghost const firstNow: int
    ghost var events: seq<K.Event>

    function Client(): M.Client
      reads this
    {
      M.Client(nonce, startNs, lastTimestamp, consecutiveDropped, reconnectAfter, clockRegressions, connectPid, 0,
               forkRecoveries, K.MAX_SAFE_INTEGER)
    }

    /** The run of the stack that the calls and callbacks so far have made. */
    ghost function History(): K.Stack
      reads this
    {
      K.Replay(transport.suite, K.Begin(transport.suite, secret, salt, firstPid, firstNow), events)
    }

    /** The fields are the end of that run. */
    ghost predicate Valid()
      reads this, transport
    {
      && buf.Length == 32
      && var k := History(); k.agent.client == Client() && k.net.t == transport.State() && k.closed == closed
    }

    /** A call or callback adds itself to the run. */
    lemma Records(before: seq<K.Event>, e: K.Event)
      requires events == before + [e]
      ensures History() == K.Apply(transport.suite,
        K.Replay(transport.suite, K.Begin(transport.suite, secret, salt, firstPid, firstNow), before), e)
    {
      K.ReplayLast(transport.suite, K.Begin(transport.suite, secret, salt, firstPid, firstNow), before, e);
    }

    constructor (transport: SecureUdpTransport, ghost secret: T.Secret, ghost salt: T.Salt, pid: u32, now: int)
      requires transport.State() == T.Open(transport.suite, secret, salt)
      ensures Valid() && fresh(buf) && this.transport == transport
      ensures events == [] && this.secret == secret && this.salt == salt && firstPid == pid && firstNow == now
    {
      this.transport := transport;
      buf := new u8[32](_ => 0);
      startNs, nonce, lastTimestamp := now, 0, 0;
      consecutiveDropped, reconnectAfter, clockRegressions := 0, 0, 0;
      connectPid, forkRecoveries, closed := pid, 0, false;
      this.secret, this.salt, firstPid, firstNow, events := secret, salt, pid, now, [];
    }

    method SendFrame(pid: u32, net: T.Net) returns (outcome: M.SendOutcome)
      modifies transport
      ensures var b := T.Send(transport.suite, old(transport.State()), buf[..], pid, net);
        transport.State() == b.transport && outcome == M.SendFrame(K.Classify(b), PLAINTEXT_BYTES)
    {
      var fault, _ := transport.Send(buf[..], pid, net);
      match fault
      case None => outcome := M.Sent;
      case Some(Droppable) => outcome := M.Dropped;
      case Some(Hard) => outcome := M.Failed;
    }

    method CommitSentFrame(candidate: u64, timestamp: u64)
      modifies this
      ensures Client() == old(Client()).(nonce := candidate, lastTimestamp := timestamp)
      ensures closed == old(closed) && events == old(events)
    {
      nonce := candidate;
      lastTimestamp := timestamp;
    }

    /** Hand the buffer to the transport, commit on success, reconnect and retry if due;
        `r` is the transport's history so far. */
    method Settle(candidate: u64, timestamp: u64, env: K.Env, ghost f: Frame, ghost r: T.Run)
      returns (outcome: M.SendOutcome)
      requires r.t == transport.State() && candidate == f.nonce && timestamp == f.timestamp
      modifies this, transport
      ensures var x := K.Talk(transport.suite, r, old(Client()), buf[..], env);
        var b := M.Settle(old(Client()), f, K.Seen(env, true, x));
        Client() == b.client && outcome == b.outcome && transport.State() == x.run.t
      ensures closed == old(closed) && events == old(events)
    {
      outcome := SendFrame(env.pid, env.first);
      match outcome
      case Sent =>
        CommitSentFrame(candidate, timestamp);
        consecutiveDropped := 0;
      case Dropped =>
        consecutiveDropped := SaturatingInc(consecutiveDropped, K.MAX_SAFE_INTEGER);
        if reconnectAfter > 0 && consecutiveDropped >= reconnectAfter {
          consecutiveDropped := 0;
          var fault := transport.Reconnect(env.rebuild);
          if fault.Some? {
            return;
          }
          outcome := SendFrame(env.pid, env.retry);
          if outcome == M.Sent {
            CommitSentFrame(candidate, timestamp);
          }
        }
      case Failed =>
        consecutiveDropped := 0;
    }

    /** Build the candidate frame in the scratch buffer, noting a clock regression. */
    method Prepare(status: Status, payload: u32, env: K.Env) returns (candidate: u64, timestamp: u64)
      requires buf.Length == 32
      modifies this, buf
      ensures Client() == M.Observed(old(Client()), K.Quiet(env)) && closed == old(closed) && events == old(events)
      ensures var f := M.Candidate(old(Client()), status, payload, K.Quiet(env));
        buf[..] == Encode(f) && candidate == f.nonce && timestamp == f.timestamp
    {
      var (next, wrapped) := M.NextNonce(nonce);
      candidate := next;
      var rawElapsed := M.Elapsed(startNs, env.now);
      if rawElapsed < lastTimestamp {
        clockRegressions := SaturatingInc(clockRegressions, U64_MAX);
      }
      timestamp := Max(lastTimestamp, rawElapsed);
      EncodeInto(NewFrame(status, env.pid, timestamp, candidate, payload), buf);
    }

    /** Rebuild the transport after the process id changed, and restart the session. */
    method Refresh(env: K.Env) returns (fault: Option<T.Fault>)
      modifies this, transport
      ensures (transport.State(), fault) == T.Reconnect(transport.suite, old(transport.State()), env.refresh)
      ensures Client() == if fault.Some? then old(Client()) else M.Refreshed(old(Client()), K.Quiet(env))
      ensures closed == old(closed) && events == old(events)
    {
      fault := transport.Reconnect(env.refresh);
      if fault.None? {
        connectPid := env.pid;
        forkRecoveries := SaturatingInc(forkRecoveries, U64_MAX);
        nonce := 0;
        startNs := env.restart;
        lastTimestamp := 0;
        consecutiveDropped := 0;
      }
    }

    /** Build, send and settle a frame from a session that is ready. */
    method Emit(status: Status, payload: u32, env: K.Env, ghost k: K.Stack, ghost r: T.Run)
      returns (outcome: M.SendOutcome)
      requires buf.Length == 32 && status != Stall
      requires Client() == K.Ready(k.agent.client, env) && transport.State() == r.t
      modifies this, transport, buf
      ensures var f := K.Offer(k.agent.client, status, payload, env);
        var k' := K.Emit(transport.suite, k, r, status, payload, K.Sent(f, Encode(f)), env);
        && Client() == k'.agent.client && transport.State() == k'.net.t
        && |k'.beats| == if outcome == M.Sent then |k.beats| + 1 else |k.beats|
      ensures closed == old(closed) && events == old(events)
    {
      ghost var f := K.Offer(k.agent.client, status, payload, env);
      var candidate, timestamp := Prepare(status, payload, env);
      ghost var text := buf[..];
      outcome := Settle(candidate, timestamp, env, f, r);
      K.EmitShape(transport.suite, k, r, status, payload, K.Sent(f, text), env);
    }

    /** All of a beat but the bookkeeping of the run it extends. */
    method BeatFrom(status: Option<Status>, payload: u32, env: K.Env, ghost k: K.Stack) returns (outcome: M.SendOutcome)
      requires buf.Length == 32
      requires k.agent.client == Client() && k.net.t == transport.State() && k.closed == closed
      modifies this, transport, buf
      ensures var k' := K.Beat(transport.suite, k, status, payload, env);
        && Client() == k'.agent.client && transport.State() == k'.net.t && closed == k'.closed
        && |k'.beats| == if outcome == M.Sent then |k.beats| + 1 else |k.beats|
      ensures events == old(events)
    {
      if status.None? || status == Some(Stall) || closed {
        consecutiveDropped := 0;
        return M.Failed;
      }
      ghost var r := k.net;
      if env.pid != connectPid {
        r := T.AfterReconnect(transport.suite, k.net, env.refresh);
        var fault := Refresh(env);
        if fault.Some? {
          return M.Failed;
        }
      }
      outcome := Emit(status.value, payload, env, k, r);
    }

    /** Emit one frame.  The object stays at the end of its run, and success is reported
        exactly when the run gained a beat. */
    method Beat(status: Option<Status>, payload: u32, env: K.Env) returns (outcome: M.SendOutcome)
      requires Valid()
      modifies this, transport, buf
      ensures Valid() && events == old(events) + [K.BeatCall(status, payload, env)]
      ensures |History().beats| == if outcome == M.Sent then |old(History()).beats| + 1 else |old(History()).beats|
    {
      outcome := BeatFrom(status, payload, env, History());
      events := events + [K.BeatCall(status, payload, env)];
      Records(old(events), K.BeatCall(status, payload, env));
    }

    method Reconnect(pid: u32, net: T.Net) returns (fault: Option<T.Fault>)
      requires Valid()
      modifies this, transport
      ensures Valid() && events == old(events) + [K.ReconnectCall(pid, net)]
      ensures fault == if old(closed) then Some(T.Hard) else net.openFault
    {
      events := events + [K.ReconnectCall(pid, net)];
      Records(old(events), K.ReconnectCall(pid, net));
      if closed {
        consecutiveDropped := 0;
        return Some(T.Hard);
      }
      fault := transport.Reconnect(net);
      if fault.None? {
        connectPid := pid;
        consecutiveDropped := 0;
      }
    }

    /** Absent, negative and fractional thresholds are cleaned up. */
    method SetReconnectAfter(n: Option<real>)
      requires Valid()
      modifies this
      ensures Valid() && events == old(events) + [K.ThresholdCall(Whole(n))]
    {
      events := events + [K.ThresholdCall(Whole(n))];
      Records(old(events), K.ThresholdCall(Whole(n)));
      reconnectAfter := Whole(n);
      consecutiveDropped := 0;
    }

    method Close()
      requires Valid()
      modifies this
      ensures Valid() && closed && events == old(events) + [K.CloseCall]
    {
      events := events + [K.CloseCall];
      Records(old(events), K.CloseCall);
      if !closed {
        closed := true;
        consecutiveDropped := 0;
      }
    }

    /** A socket event delivered between calls. */
    method OnConnect(socket: nat)
      requires Valid()
      modifies this, transport
      ensures Valid() && events == old(events) + [K.SocketCallback(T.ConnectCallback(socket))]
    {
      events := events + [K.SocketCallback(T.ConnectCallback(socket))];
      Records(old(events), K.SocketCallback(T.ConnectCallback(socket)));
      var flushed := transport.OnConnect(socket);
    }

    method OnError(socket: nat, fault: T.Fault)
      requires Valid()
      modifies this, transport
      ensures Valid() && events == old(events) + [K.SocketCallback(T.ErrorCallback(socket, fault))]
    {
      events := events + [K.SocketCallback(T.ErrorCallback(socket, fault))];
      Records(old(events), K.SocketCallback(T.ErrorCallback(socket, fault)));
      transport.OnError(socket, fault);
    }

    /** At any moment in the object's life: opening and decoding what it transmitted, and what
        its transport still holds in its queue, gives its successful beats in order. */
    lemma EndToEnd()
      requires Valid() && Lawful(transport.suite) && T.KeyOk(secret)
      ensures var k := History();
        var wires := k.net.transmitted + transport.queue;
        && |wires| == |k.beats|
        && forall i :: 0 <= i < |wires| ==> K.Receive(transport.suite, secret, wires[i]) == K.Expected(k.beats[i].frame)
    {
      K.EndToEnd(transport.suite, secret, salt, firstPid, firstNow, events);
    }
  }

  /** A threshold as the client stores it. */
  function Whole(n: Option<real>): (w: nat)
    ensures n.Some? && n.value >= 1.0 <==> w > 0
    ensures n.Some? && n.value > 0.0 ==> w as real <= n.value < w as real + 1.0
  {
    if n.Some? && n.value > 0.0 then n.value.Floor else 0
  }
}
