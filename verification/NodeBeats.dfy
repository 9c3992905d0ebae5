/** What callers of the Node stack ask for, and what becomes of it. */
module NodeBeats {
  import opened Wrappers
  import opened Words
  import opened VlpFrame
  import opened SecureWire
  import M = BeatMachine
  import T = SecureTransport
  import K = NodeStack

  /** What a caller asks a beat to carry, and the process it asks from. */
  datatype Ask = Ask(status: Status, payload: u32, pid: u32)

  function AskOf(f: Frame): Ask { Ask(f.status, f.payload, f.pid) }

  function Asks(beats: seq<K.Sent>): seq<Ask> {
    seq(|beats|, i requires 0 <= i < |beats| => AskOf(beats[i].frame))
  }

  /** The ask of a call, if it reports success. */
  function GrantedOne(s: Suite, k: K.Stack, e: K.Event): seq<Ask> {
    if e.BeatCall? && e.status.Some? && |K.Apply(s, k, e).beats| > |k.beats|
    then [Ask(e.status.value, e.payload, e.env.pid)] else []
  }

  /** The asks of the calls that reported success, in call order. */
  function Granted(s: Suite, k: K.Stack, events: seq<K.Event>): seq<Ask>
    decreases |events|
  {
    if events == [] then []
    else GrantedOne(s, k, events[0]) + Granted(s, K.Apply(s, k, events[0]), events[1..])
  }

  /** A beat adds nothing to the successful beats, or one that carries what was asked. */
  predicate AddsAsk(k: K.Stack, k': K.Stack, ask: Ask) {
    k'.beats == k.beats ||
    (|k'.beats| == |k.beats| + 1 && k'.beats[..|k.beats|] == k.beats && AskOf(k'.beats[|k.beats|].frame) == ask)
  }

  lemma OfferCarries(c: M.Client, status: Status, payload: u32, env: K.Env)
    requires status != Stall
    ensures AskOf(K.Offer(c, status, payload, env)) == Ask(status, payload, env.pid)
  {
    var b := M.Beat(c, status, payload, K.Quiet(env));
    M.RefreshBeforeSend(c, status, payload, K.Quiet(env));
    M.BeatIsEmit(c, K.Ready(c, env), status, payload, K.Quiet(env));
    M.BeatCarries(c, status, payload, K.Quiet(env), 0);
    assert b.attempts[0].frame == K.Offer(c, status, payload, env);
  }

  lemma BeatAdds(s: Suite, k: K.Stack, status: Option<Status>, payload: u32, env: K.Env)
    ensures var k' := K.Beat(s, k, status, payload, env);
      k'.beats == k.beats || (status.Some? && AddsAsk(k, k', Ask(status.value, payload, env.pid)))
  {
    if status.Some? && status != Some(Stall) && !k.closed {
      OfferCarries(k.agent.client, status.value, payload, env);
    }
  }

  lemma ApplyAdds(s: Suite, k: K.Stack, e: K.Event)
    ensures var k' := K.Apply(s, k, e);
      k'.beats == k.beats ||
      (e.BeatCall? && e.status.Some? && AddsAsk(k, k', Ask(e.status.value, e.payload, e.env.pid)))
  {
    if e.BeatCall? {
      BeatAdds(s, k, e.status, e.payload, e.env);
    }
  }

  lemma ApplyCarries(s: Suite, k: K.Stack, e: K.Event)
    ensures Asks(K.Apply(s, k, e).beats) == Asks(k.beats) + GrantedOne(s, k, e)
  {
    ApplyAdds(s, k, e);
    AsksExtend(k, K.Apply(s, k, e), if e.BeatCall? && e.status.Some? then Ask(e.status.value, e.payload, e.env.pid) else Ask(Ok, 0, 0));
  }

  lemma AsksExtend(k: K.Stack, k': K.Stack, ask: Ask)
    requires AddsAsk(k, k', ask)
    ensures Asks(k'.beats) == Asks(k.beats) + if |k'.beats| > |k.beats| then [ask] else []
  {
    if |k'.beats| > |k.beats| {
      assert forall i :: 0 <= i < |k.beats| ==> k'.beats[i] == k'.beats[..|k.beats|][i];
    }
  }

  /** The successful beats carry exactly what the successful calls asked, in call order. */
  lemma {:induction false} RunCarries(s: Suite, k: K.Stack, events: seq<K.Event>)
    ensures Asks(K.Replay(s, k, events).beats) == Asks(k.beats) + Granted(s, k, events)
    decreases |events|
  {
    if events != [] {
      var k' := K.Apply(s, k, events[0]);
      ApplyCarries(s, k, events[0]);
      RunCarries(s, k', events[1..]);
      Regroup(Asks(k.beats), GrantedOne(s, k, events[0]), Granted(s, k', events[1..]));
    }
  }

  /** For every schedule: what a receiver reads from the wires, transmitted and queued, is what
      the successful calls asked for, in call order; it rejects only reserved process ids and
      a saturated clock. */
  lemma AsksArrive(s: Suite, secret: T.Secret, salt: T.Salt, pid: u32, now: int, events: seq<K.Event>)
    requires Lawful(s) && T.KeyOk(secret)
    ensures var k0 := K.Begin(s, secret, salt, pid, now);
      var k := K.Replay(s, k0, events);
      var wires, asks := k.net.transmitted + k.net.t.queue, Granted(s, k0, events);
      && |wires| == |asks| == |k.beats|
      && forall i :: 0 <= i < |wires| ==>
           var f := K.Receive(s, secret, wires[i]);
           if f.Some? then AskOf(f.value) == asks[i] else asks[i].pid < 2 || k.beats[i].frame.timestamp == U64_MAX
  {
    var k0 := K.Begin(s, secret, salt, pid, now);
    K.EndToEnd(s, secret, salt, pid, now, events);
    RunCarries(s, k0, events);
    assert Asks(k0.beats) == [];
    assert Asks(K.Replay(s, k0, events).beats) == Granted(s, k0, events);
  }

  // ---- when the frames were made ------------------------------------------

  lemma EmitFrame(s: Suite, k: K.Stack, r: T.Run, status: Status, payload: u32, one: K.Sent, env: K.Env,
                  base: int, session: seq<Frame>)
    requires M.Inv(k.agent) && status != Stall && M.SessionOf(k.agent, K.Quiet(env), base, session)
    requires |K.Emit(s, k, r, status, payload, one, env).beats| > |k.beats|
    ensures var k' := K.Emit(s, k, r, status, payload, one, env);
      && k'.agent.base == base
      && k'.agent.accepted == session + [NewFrame(status, env.pid, M.Stamp(base, env.now, M.LastAccepted(session)),
                                                  (|session| + 1) % M.NONCE_MODULUS, payload)]
  {
    var x := K.Talk(s, r, K.Eager(k.agent.client, env), one.text, env);
    M.AcceptedFrame(k.agent, status, payload, K.Seen(env, true, x), base, session);
  }

  /** The frame a successful beat adds carries the time since its session began, but never
      less than the last accepted, and the next nonce. */
  lemma BeatFrame(s: Suite, k: K.Stack, status: Status, payload: u32, env: K.Env, base: int, session: seq<Frame>)
    requires Lawful(s) && K.Inv(s, k) && M.SessionOf(k.agent, K.Quiet(env), base, session)
    requires |K.Beat(s, k, Some(status), payload, env).beats| > |k.beats|
    ensures var k' := K.Beat(s, k, Some(status), payload, env);
      && k'.agent.base == base
      && k'.beats[|k'.beats| - 1].frame == NewFrame(status, env.pid, M.Stamp(base, env.now, M.LastAccepted(session)),
                                                    (|session| + 1) % M.NONCE_MODULUS, payload)
  {
    var r, one := BeatIsEmit(s, k, status, payload, env);
    EmitFrame(s, k, r, status, payload, one, env, base, session);
    K.BeatKeepsInv(s, k, Some(status), payload, env);
    LastOfSession(K.Beat(s, k, Some(status), payload, env));
  }

  /** A beat that adds to the successful beats gets as far as handing over a buffer. */
  lemma BeatIsEmit(s: Suite, k: K.Stack, status: Status, payload: u32, env: K.Env) returns (r: T.Run, one: K.Sent)
    requires |K.Beat(s, k, Some(status), payload, env).beats| > |k.beats|
    ensures status != Stall && !k.closed
    ensures K.Beat(s, k, Some(status), payload, env) == K.Emit(s, k, r, status, payload, one, env)
  {
    var c := k.agent.client;
    r := if M.NeedsRefresh(c, env.pid, 0) then T.AfterReconnect(s, k.net, env.refresh) else k.net;
    one := K.Sent(K.Offer(c, status, payload, env), Encode(K.Offer(c, status, payload, env)));
  }

  lemma LastOfSession(k: K.Stack)
    requires K.EndsWithSession(k.agent.accepted, k.beats) && k.agent.accepted != []
    ensures k.beats[|k.beats| - 1].frame == k.agent.accepted[|k.agent.accepted| - 1]
  {}

  // ---- when a beat succeeds -----------------------------------------------

  /** A drop now makes the agent rebuild its transport. */
  predicate Due(c: M.Client) {
    c.reconnectAfter > 0 && SaturatingInc(c.consecutiveDropped, c.dropMax) >= c.reconnectAfter
  }

  /** A transport just rebuilt takes one frame exactly if its queue has room. */
  lemma RebuiltTakes(s: Suite, t: T.Transport, net: T.Net, net': T.Net)
    requires net.openFault.None?
    ensures T.Refusal(T.Reconnect(s, t, net).0, net').None? <==> |t.queue| < 64
  {}

  lemma DeliverIff(s: Suite, r: T.Run, text: Bytes, pid: u32, net: T.Net)
    requires Lawful(s) && T.KeyOk(r.t.secret) && |r.t.ivPrefix| == IV_RANDOM_BYTES && |text| == PLAINTEXT_BYTES
    ensures var refusal := T.Refusal(r.t, net);
      K.Deliver(s, r, text, pid, net).1 ==
        if refusal.None? then M.Wrote(PLAINTEXT_BYTES) else if refusal == Some(T.Droppable) then M.DropError else M.HardError
  {
    T.ThrowsIff(s, r.t, text, pid, net);
  }

  /** A send that throws leaves key, prefix and queue as they were. */
  lemma ThrowKeeps(s: Suite, r: T.Run, text: Bytes, pid: u32, net: T.Net)
    requires T.Send(s, r.t, text, pid, net).Threw? && T.Refusal(r.t, net).Some?
    ensures var t := T.AfterSend(r, T.Send(s, r.t, text, pid, net), text, pid, net).t;
      t.queue == r.t.queue && t.secret == r.t.secret && t.ivPrefix == r.t.ivPrefix
  {}

  /** An exchange delivers the buffer exactly if the first send meets no fault, or meets a
      droppable one when a rebuild is due, works, and the queue has room. */
  lemma TalkDeliversIff(s: Suite, r: T.Run, c: M.Client, text: Bytes, env: K.Env)
    requires Lawful(s) && T.KeyOk(r.t.secret) && |r.t.ivPrefix| == IV_RANDOM_BYTES && |text| == PLAINTEXT_BYTES
    ensures var refusal := T.Refusal(r.t, env.first);
      K.Delivered(K.Talk(s, r, c, text, env)) <==>
        refusal.None? ||
        (refusal == Some(T.Droppable) && Due(c) && env.rebuild.openFault.None? && |r.t.queue| < 64)
  {
    DeliverIff(s, r, text, env.pid, env.first);
    T.ThrowsIff(s, r.t, text, env.pid, env.first);
    if T.Refusal(r.t, env.first).Some? {
      ThrowKeeps(s, r, text, env.pid, env.first);
      var r1 := K.Deliver(s, r, text, env.pid, env.first).0;
      if env.rebuild.openFault.None? {
        RebuiltTakes(s, r1.t, env.rebuild, env.retry);
        DeliverIff(s, T.AfterReconnect(s, r1, env.rebuild), text, env.pid, env.retry);
      }
    }
  }

  /** The transport can seal: its key and prefix have the right lengths. */
  predicate CanSeal(t: T.Transport) { T.KeyOk(t.secret) && |t.ivPrefix| == IV_RANDOM_BYTES }

  lemma StackCanSeal(s: Suite, k: K.Stack, net: T.Net)
    requires Lawful(s) && T.NonceInv(s, k.net)
    ensures CanSeal(k.net.t) && CanSeal(T.AfterReconnect(s, k.net, net).t)
  {}

  /** A send to `t` gets through, at once or after a rebuild. */
  predicate GetsThrough(t: T.Transport, due: bool, env: K.Env) {
    var refusal := T.Refusal(t, env.first);
    refusal.None? || (refusal == Some(T.Droppable) && due && env.rebuild.openFault.None? && |t.queue| < 64)
  }

  lemma EmitSentIff(s: Suite, k: K.Stack, r: T.Run, status: Status, payload: u32, one: K.Sent, env: K.Env)
    requires Lawful(s) && CanSeal(r.t) && |one.text| == PLAINTEXT_BYTES && status != Stall
    ensures |K.Emit(s, k, r, status, payload, one, env).beats| == |k.beats| + 1 <==>
      GetsThrough(r.t, Due(K.Eager(k.agent.client, env)), env)
  {
    TalkDeliversIff(s, r, K.Eager(k.agent.client, env), one.text, env);
    K.SentIffDelivered(s, r, k.agent.client, status, payload, one.text, env);
  }

  lemma ReadySentIff(s: Suite, k: K.Stack, status: Status, payload: u32, env: K.Env)
    requires Lawful(s) && T.NonceInv(s, k.net) && !k.closed && status != Stall
    ensures var fork := M.NeedsRefresh(k.agent.client, env.pid, 0);
      var r := if fork then T.AfterReconnect(s, k.net, env.refresh) else k.net;
      |K.Beat(s, k, Some(status), payload, env).beats| == |k.beats| + 1 <==>
        (fork ==> env.refresh.openFault.None?) && GetsThrough(r.t, Due(K.Eager(k.agent.client, env)), env)
  {
    var c := k.agent.client;
    var fork := M.NeedsRefresh(c, env.pid, 0);
    StackCanSeal(s, k, env.refresh);
    var r := if fork then T.AfterReconnect(s, k.net, env.refresh) else k.net;
    var f := K.Offer(c, status, payload, env);
    EmitSentIff(s, k, r, status, payload, K.Sent(f, Encode(f)), env);
  }

  /** The drops in a row, this one included, reach a threshold that is set. */
  predicate DropsReach(r: M.Run) { r.threshold > 0 && Min(r.streak + 1, r.client.dropMax) >= r.threshold }

  lemma DueIff(r: M.Run, env: K.Env)
    requires M.Tracks(r) && (env.pid, 0) == r.home
    ensures Due(K.Eager(r.client, env)) <==> DropsReach(r)
  {}

  /** Exactly when a beat succeeds: the client is open and the status may be sent; and, in the
      process that last opened the transport, the first send meets no fault, or a droppable
      one that is one drop in a row too many, the rebuild works and the queue has room; in
      another process, the refresh works and the queue has room. */
  lemma BeatSentIff(s: Suite, k: K.Stack, status: Option<Status>, payload: u32, env: K.Env)
    requires Lawful(s) && T.NonceInv(s, k.net) && M.Tracks(k.agent)
    ensures |K.Beat(s, k, status, payload, env).beats| == |k.beats| + 1 <==>
      && !k.closed && status.Some? && status.value != Stall
      && if (env.pid, 0) == k.agent.home then GetsThrough(k.net.t, DropsReach(k.agent), env)
         else env.refresh.openFault.None? && |k.net.t.queue| < 64
  {
    if !k.closed && status.Some? && status.value != Stall {
      ReadySentIff(s, k, status.value, payload, env);
      if (env.pid, 0) == k.agent.home {
        DueIff(k.agent, env);
      } else if env.refresh.openFault.None? {
        RebuiltTakes(s, k.net.t, env.refresh, env.first);
      }
    }
  }

  // ---- what the other calls do --------------------------------------------

  lemma ClosedStep(s: Suite, k: K.Stack, e: K.Event)
    requires k.closed
    ensures var z := K.Apply(s, k, e); z.closed && z.beats == k.beats && z.net.accepted == k.net.accepted
  {}

  /** A closed client stays closed and sends nothing, whatever it is asked. */
  lemma ClosedForever(s: Suite, k: K.Stack, events: seq<K.Event>)
    ensures var z := K.Replay(s, K.Apply(s, k, K.CloseCall), events);
      z.closed && z.beats == k.beats && z.net.accepted == k.net.accepted
  {
    ClosedRun(s, K.Apply(s, k, K.CloseCall), events);
  }

  lemma {:induction false} ClosedRun(s: Suite, k: K.Stack, events: seq<K.Event>)
    requires k.closed
    ensures var z := K.Replay(s, k, events); z.closed && z.beats == k.beats && z.net.accepted == k.net.accepted
    decreases |events|
  {
    if events != [] {
      ClosedStep(s, k, events[0]);
      ClosedRun(s, K.Apply(s, k, events[0]), events[1..]);
    }
  }

  /** A reconnect that works opens a session under the salt it met and makes the calling
      process the transport's; one that fails spends a socket number; of a closed client it
      only forgets the drops.  The agent's own session goes on in each case. */
  lemma ReconnectOpens(s: Suite, k: K.Stack, pid: u32, net: T.Net)
    ensures var z := K.Reconnect(s, k, pid, net);
      && z.beats == k.beats && z.closed == k.closed && z.net.accepted == k.net.accepted && z.net.t.queue == k.net.t.queue
      && z.agent.base == k.agent.base && z.agent.accepted == k.agent.accepted
      && (k.closed ==> z.net == k.net && z.agent.streak == 0 && z.agent.home == k.agent.home)
      && (!k.closed && net.openFault.Some? ==>
            z.agent == k.agent && z.net == k.net.(t := k.net.t.(created := k.net.t.created + 1)))
      && (!k.closed && net.openFault.None? ==>
            && z.agent.home == (pid, 0) && z.agent.streak == 0
            && z.net.session == k.net.session + 1 && z.net.drawn == k.net.drawn + [net.salt]
            && !z.net.t.connected && z.net.t.pendingError.None?)
  {}

  /** Setting the threshold restarts the drop count and leaves the rest alone. */
  lemma ThresholdSets(s: Suite, k: K.Stack, n: nat)
    ensures var z := K.Apply(s, k, K.ThresholdCall(n));
      && z.agent.threshold == n && z.agent.streak == 0 && z.agent.base == k.agent.base && z.agent.home == k.agent.home
      && z.agent.accepted == k.agent.accepted && z == k.(agent := z.agent)
  {}

  lemma BeatKeepsLimit(c: M.Client, status: Status, payload: u32, env: M.Env)
    ensures M.Beat(c, status, payload, env).client.dropMax == c.dropMax
  {}

  lemma ApplyKeepsLimit(s: Suite, k: K.Stack, e: K.Event)
    ensures K.Apply(s, k, e).agent.client.dropMax == k.agent.client.dropMax
  {
    if e.BeatCall? && e.status.Some? {
      var c := k.agent.client;
      var r := if M.NeedsRefresh(c, e.env.pid, 0) then T.AfterReconnect(s, k.net, e.env.refresh) else k.net;
      var x := K.Talk(s, r, K.Eager(c, e.env), Encode(K.Offer(c, e.status.value, e.payload, e.env)), e.env);
      BeatKeepsLimit(c, e.status.value, e.payload, K.Seen(e.env, true, x));
    }
  }

  /** In every schedule the drop count saturates at the largest exact integer of a double. */
  lemma {:induction false} DropLimit(s: Suite, secret: T.Secret, salt: T.Salt, pid: u32, now: int, events: seq<K.Event>)
    ensures K.Replay(s, K.Begin(s, secret, salt, pid, now), events).agent.client.dropMax == 0x1F_FFFF_FFFF_FFFF
    decreases |events|
  {
    if events != [] {
      var n := |events| - 1;
      assert events == events[..n] + [events[n]];
      DropLimit(s, secret, salt, pid, now, events[..n]);
      K.ReplayLast(s, K.Begin(s, secret, salt, pid, now), events[..n], events[n]);
      ApplyKeepsLimit(s, K.Replay(s, K.Begin(s, secret, salt, pid, now), events[..n]), events[n]);
    }
  }

  /** A beat whose refresh fails leaves agent, session and queue as they were. */
  lemma FailedRefreshKeeps(s: Suite, k: K.Stack, status: Status, payload: u32, env: K.Env)
    requires !k.closed && status != Stall && M.NeedsRefresh(k.agent.client, env.pid, 0) && env.refresh.openFault.Some?
    ensures K.Beat(s, k, Some(status), payload, env) ==
      k.(net := k.net.(t := k.net.t.(created := k.net.t.created + 1)))
  {
    T.ReconnectThrows(s, k.net, env.refresh);
  }
}
