/** The Node agent end to end: the beat machine on top of the secure transport. */
module NodeStack {
  import opened Wrappers
  import opened Words
  import opened VlpFrame
  import opened SecureWire
  import M = BeatMachine
  import T = SecureTransport

  /** Where the Node drop counter saturates: the largest exact integer of a double. */
  const MAX_SAFE_INTEGER: nat := 0x1F_FFFF_FFFF_FFFF

  /** What a beat meets: process id, clock reads, and the network at each transport call. */
  datatype Env = Env(pid: u32, restart: int, now: int, refresh: T.Net, first: T.Net, rebuild: T.Net, retry: T.Net)

  /** A beat that reported success: its frame and the buffer handed to the transport. */
  datatype Sent = Sent(frame: Frame, text: Bytes)

  /** The agent with its transport, and the successful beats. */
  datatype Stack = Stack(agent: M.Run, net: T.Run, closed: bool, beats: seq<Sent>)

  function Begin(s: Suite, secret: T.Secret, salt: T.Salt, pid: u32, now: int): Stack {
    Stack(M.Begin(pid, 0, now, MAX_SAFE_INTEGER), T.Begin(s, secret, salt), false, [])
  }

  function Classify(b: T.SendResult): M.Reply {
    match b
    case Accepted(_, _, _, _, _) => M.Wrote(PLAINTEXT_BYTES)
    case Threw(_, Droppable, _) => M.DropError
    case Threw(_, Hard, _) => M.HardError
  }

  /** One transport send of a buffer: its effect and its reply. */
  function Deliver(s: Suite, r: T.Run, text: Bytes, pid: u32, net: T.Net): (T.Run, M.Reply) {
    var b := T.Send(s, r.t, text, pid, net);
    (T.AfterSend(r, b, text, pid, net), Classify(b))
  }

  predicate RebuildDue(c: M.Client, reply: M.Reply) {
    reply == M.DropError && c.reconnectAfter > 0 && SaturatingInc(c.consecutiveDropped, c.dropMax) >= c.reconnectAfter
  }

  /** All transport work of one emission: the run it leaves and what the agent saw. */
  datatype Exchange = Exchange(run: T.Run, first: M.Reply, reconnected: bool, retry: M.Reply)

  function Talk(s: Suite, r: T.Run, c: M.Client, text: Bytes, env: Env): Exchange {
    var (r1, first) := Deliver(s, r, text, env.pid, env.first);
    if !RebuildDue(c, first) then Exchange(r1, first, false, M.HardError)
    else
      var r2 := T.AfterReconnect(s, r1, env.rebuild);
      if env.rebuild.openFault.Some? then Exchange(r2, first, false, M.HardError)
      else
        var (r3, retry) := Deliver(s, r2, text, env.pid, env.retry);
        Exchange(r3, first, true, retry)
  }

  function Seen(env: Env, refreshed: bool, x: Exchange): M.Env {
    M.Env(env.pid, 0, refreshed, env.restart, env.now, PLAINTEXT_BYTES, x.first, x.reconnected, x.retry)
  }

  /** The part of the surroundings that does not depend on the transport. */
  function Quiet(env: Env): M.Env {
    M.Env(env.pid, 0, true, env.restart, env.now, PLAINTEXT_BYTES, M.HardError, false, M.HardError)
  }

  /** The agent session a frame is built in: refreshed first if the process id changed. */
  function Ready(c: M.Client, env: Env): M.Client {
    if M.NeedsRefresh(c, env.pid, 0) then M.Refreshed(c, Quiet(env)) else c
  }

  /** The agent when the buffer is handed over. */
  function Eager(c: M.Client, env: Env): M.Client { M.Observed(Ready(c, env), Quiet(env)) }

  function Offer(c: M.Client, status: Status, payload: u32, env: Env): Frame {
    M.Candidate(Ready(c, env), status, payload, Quiet(env))
  }

  /** A beat that is refused before any frame is built. */
  function Refuse(k: Stack, net: T.Run): Stack { k.(net := net) }

  function Reset(k: Stack): Stack {
    k.(agent := k.agent.(client := k.agent.client.(consecutiveDropped := 0), streak := 0))
  }

  function Beat(s: Suite, k: Stack, status: Option<Status>, payload: u32, env: Env): Stack {
    if status.None? || status == Some(Stall) || k.closed then Reset(k)
    else
      var c := k.agent.client;
      var fork := M.NeedsRefresh(c, env.pid, 0);
      var r := if fork then T.AfterReconnect(s, k.net, env.refresh) else k.net;
      if fork && env.refresh.openFault.Some? then Refuse(k, r)
      else
        var f := Offer(c, status.value, payload, env);
        Emit(s, k, r, status.value, payload, Sent(f, Encode(f)), env)
  }

  /** Hand the buffer to the transport, let the agent see the replies, note a success. */
  function Emit(s: Suite, k: Stack, r: T.Run, status: Status, payload: u32, one: Sent, env: Env): Stack {
    var c := k.agent.client;
    var x := Talk(s, r, Eager(c, env), one.text, env);
    var seen := Seen(env, true, x);
    Stack(M.Apply(k.agent, M.BeatEvent(status, payload, seen)), x.run, k.closed,
          if M.Beat(c, status, payload, seen).outcome == M.Sent then k.beats + [one] else k.beats)
  }

  function Reconnect(s: Suite, k: Stack, pid: u32, net: T.Net): Stack {
    if k.closed then Reset(k)
    else
      k.(agent := M.Apply(k.agent, M.ReconnectEvent(net.openFault.None?, pid, 0)), net := T.AfterReconnect(s, k.net, net))
  }

  datatype Event =
    | BeatCall(status: Option<Status>, payload: u32, env: Env)
    | ReconnectCall(pid: u32, net: T.Net)
    | ThresholdCall(n: nat)
    | CloseCall
    | SocketCallback(e: T.Event)

  function Apply(s: Suite, k: Stack, e: Event): Stack {
    match e
    case BeatCall(status, payload, env) => Beat(s, k, status, payload, env)
    case ReconnectCall(pid, net) => Reconnect(s, k, pid, net)
    case ThresholdCall(n) => k.(agent := M.Apply(k.agent, M.ThresholdEvent(n)))
    case CloseCall => if k.closed then k else Reset(k).(closed := true)
    case SocketCallback(cb) => if cb.ConnectCallback? || cb.ErrorCallback? then k.(net := T.Apply(s, k.net, cb)) else k
  }

  function Replay(s: Suite, k: Stack, events: seq<Event>): Stack
    decreases |events|
  {
    if events == [] then k else Replay(s, Apply(s, k, events[0]), events[1..])
  }

  lemma {:induction false} ReplayLast(s: Suite, k: Stack, events: seq<Event>, e: Event)
    ensures Replay(s, k, events + [e]) == Apply(s, Replay(s, k, events), e)
    decreases |events|
  {
    if events == [] {
      assert [e][1..] == [];
    } else {
      assert (events + [e])[1..] == events[1..] + [e];
      ReplayLast(s, Apply(s, k, events[0]), events[1..], e);
    }
  }

  // ---- what every schedule keeps -----------------------------------------

  /** A frame built for a regular beat. */
  predicate Regular(f: Frame) {
    f == NewFrame(f.status, f.pid, f.timestamp, f.nonce, f.payload) && f.status != Stall && f.nonce != NONCE_TERMINAL
  }

  /** The buffer held the encoded frame. */
  predicate Encoded(b: Sent) { Regular(b.frame) && b.text == Encode(b.frame) }

  /** The accepted datagrams are, in order, the sealed successful beats. */
  predicate Matches(accepted: seq<T.Entry>, beats: seq<Sent>) {
    && |accepted| == |beats|
    && forall i :: 0 <= i < |beats| ==> accepted[i].text == beats[i].text && accepted[i].pid == beats[i].frame.pid
  }

  predicate AllEncoded(beats: seq<Sent>) { forall i :: 0 <= i < |beats| ==> Encoded(beats[i]) }

  predicate InStep(s: Suite, k: Stack) {
    M.Inv(k.agent) && T.Inv(s, k.net) && Matches(k.net.accepted, k.beats)
  }

  /** The beats since connect or the last fork recovery end the list of all beats. */
  predicate EndsWithSession(accepted: seq<Frame>, beats: seq<Sent>) {
    && |accepted| <= |beats|
    && forall i :: 0 <= i < |accepted| ==> beats[|beats| - |accepted| + i].frame == accepted[i]
  }

  predicate Inv(s: Suite, k: Stack) {
    InStep(s, k) && AllEncoded(k.beats) && EndsWithSession(k.agent.accepted, k.beats)
  }

  lemma BeginInv(s: Suite, secret: T.Secret, salt: T.Salt, pid: u32, now: int)
    requires Lawful(s) && T.KeyOk(secret)
    ensures Inv(s, Begin(s, secret, salt, pid, now))
  {
    T.EveryRun(s, secret, salt, []);
    M.EveryRun(pid, 0, now, MAX_SAFE_INTEGER, []);
  }

  lemma ResetKeepsInv(s: Suite, k: Stack)
    requires Inv(s, k)
    ensures Inv(s, Reset(k))
  {}

  lemma OfferRegular(c: M.Client, status: Status, payload: u32, env: Env)
    requires status != Stall
    ensures Regular(Offer(c, status, payload, env))
  {}

  lemma NoteMatches(r: T.Run, b: T.SendResult, beats: seq<Sent>, one: Sent, net: T.Net)
    requires Matches(r.accepted, beats)
    ensures Matches(T.AfterSend(r, b, one.text, one.frame.pid, net).accepted, if b.Accepted? then beats + [one] else beats)
  {}

  /** A delivery accepts the buffer or nothing. */
  lemma DeliverMatches(s: Suite, r: T.Run, beats: seq<Sent>, one: Sent, net: T.Net)
    requires Lawful(s) && T.Inv(s, r) && Matches(r.accepted, beats)
    ensures var (r', reply) := Deliver(s, r, one.text, one.frame.pid, net);
      T.Inv(s, r') && Matches(r'.accepted, if reply == M.Wrote(PLAINTEXT_BYTES) then beats + [one] else beats)
  {
    T.SendKeepsNonces(s, r, one.text, one.frame.pid, net);
    T.SendKeepsQueue(s, r, one.text, one.frame.pid, net);
    NoteMatches(r, T.Send(s, r.t, one.text, one.frame.pid, net), beats, one, net);
  }

  lemma ReconnectMatches(s: Suite, r: T.Run, net: T.Net)
    requires T.Inv(s, r)
    ensures var r' := T.AfterReconnect(s, r, net); T.Inv(s, r') && r'.accepted == r.accepted
  {
    T.ReconnectKeepsNonces(s, r, net);
    T.ReconnectKeepsQueue(s, r, net);
  }

  predicate Delivered(x: Exchange) {
    x.first == M.Wrote(PLAINTEXT_BYTES) || (x.reconnected && x.retry == M.Wrote(PLAINTEXT_BYTES))
  }

  /** First attempt and retry together accept the buffer at most once. */
  lemma TalkMatches(s: Suite, r: T.Run, c: M.Client, beats: seq<Sent>, one: Sent, env: Env)
    requires Lawful(s) && T.Inv(s, r) && Matches(r.accepted, beats) && one.frame.pid == env.pid
    ensures var x := Talk(s, r, c, one.text, env);
      T.Inv(s, x.run) && Matches(x.run.accepted, if Delivered(x) then beats + [one] else beats)
  {
    DeliverMatches(s, r, beats, one, env.first);
    var (r1, first) := Deliver(s, r, one.text, env.pid, env.first);
    if RebuildDue(c, first) {
      var r2 := T.AfterReconnect(s, r1, env.rebuild);
      ReconnectMatches(s, r1, env.rebuild);
      if env.rebuild.openFault.None? {
        DeliverMatches(s, r2, beats, one, env.retry);
      }
    }
  }

  /** The agent reports success exactly when the transport accepted its buffer. */
  lemma SentIffDelivered(s: Suite, r: T.Run, c: M.Client, status: Status, payload: u32, text: Bytes, env: Env)
    requires status != Stall
    ensures var x := Talk(s, r, Eager(c, env), text, env);
      var b := M.Beat(c, status, payload, Seen(env, true, x));
      (b.outcome == M.Sent <==> Delivered(x)) && b.attempts != [] && b.attempts[0].frame == Offer(c, status, payload, env)
  {
    var x := Talk(s, r, Eager(c, env), text, env);
    TalkShape(s, r, Eager(c, env), text, env);
    M.RefreshBeforeSend(c, status, payload, Seen(env, true, x));
    M.RetryRepeats(c, status, payload, Seen(env, true, x));
  }

  lemma TalkShape(s: Suite, r: T.Run, c: M.Client, text: Bytes, env: Env)
    ensures var x := Talk(s, r, c, text, env); x.reconnected ==> RebuildDue(c, x.first)
  {}

  lemma EmitInStep(s: Suite, k: Stack, r: T.Run, status: Status, payload: u32, one: Sent, env: Env)
    requires Lawful(s) && M.Inv(k.agent) && T.Inv(s, r) && Matches(r.accepted, k.beats)
    requires status != Stall && one.frame.pid == env.pid
    ensures InStep(s, Emit(s, k, r, status, payload, one, env))
  {
    var c := k.agent.client;
    TalkMatches(s, r, Eager(c, env), k.beats, one, env);
    SentIffDelivered(s, r, c, status, payload, one.text, env);
    M.ApplyKeepsInv(k.agent, M.BeatEvent(status, payload, Seen(env, true, Talk(s, r, Eager(c, env), one.text, env))));
  }

  /** An emission in terms of what the transport did. */
  lemma EmitShape(s: Suite, k: Stack, r: T.Run, status: Status, payload: u32, one: Sent, env: Env)
    requires status != Stall
    ensures var c := k.agent.client;
      var x := Talk(s, r, Eager(c, env), one.text, env);
      var b := M.Settle(Eager(c, env), Offer(c, status, payload, env), Seen(env, true, x));
      var k' := Emit(s, k, r, status, payload, one, env);
      && k'.agent.client == b.client && k'.net == x.run && k'.closed == k.closed
      && |k'.beats| == if b.outcome == M.Sent then |k.beats| + 1 else |k.beats|
  {
    var c := k.agent.client;
    var x := Talk(s, r, Eager(c, env), one.text, env);
    M.RefreshBeforeSend(c, status, payload, Seen(env, true, x));
    M.BeatIsEmit(c, Ready(c, env), status, payload, Seen(env, true, x));
  }

  lemma EmitEncoded(s: Suite, k: Stack, r: T.Run, status: Status, payload: u32, one: Sent, env: Env)
    requires AllEncoded(k.beats) && Encoded(one)
    ensures AllEncoded(Emit(s, k, r, status, payload, one, env).beats)
  {
    var beats := Emit(s, k, r, status, payload, one, env).beats;
    assert beats == k.beats || beats == k.beats + [one];
  }

  lemma EmitEndsWithSession(s: Suite, k: Stack, r: T.Run, status: Status, payload: u32, one: Sent, env: Env)
    requires EndsWithSession(k.agent.accepted, k.beats)
    requires status != Stall && one.frame == Offer(k.agent.client, status, payload, env)
    ensures var k' := Emit(s, k, r, status, payload, one, env); EndsWithSession(k'.agent.accepted, k'.beats)
  {
    var c := k.agent.client;
    SentIffDelivered(s, r, c, status, payload, one.text, env);
    var b := M.Beat(c, status, payload, Seen(env, true, Talk(s, r, Eager(c, env), one.text, env)));
    var session := if b.refresh then [] else k.agent.accepted;
    assert Emit(s, k, r, status, payload, one, env).agent.accepted
        == if b.outcome == M.Sent then session + [one.frame] else session;
  }

  lemma BeatKeepsInv(s: Suite, k: Stack, status: Option<Status>, payload: u32, env: Env)
    requires Lawful(s) && Inv(s, k)
    ensures Inv(s, Beat(s, k, status, payload, env))
  {
    if status.None? || status == Some(Stall) || k.closed {
      ResetKeepsInv(s, k);
    } else {
      var c := k.agent.client;
      var fork := M.NeedsRefresh(c, env.pid, 0);
      ReconnectMatches(s, k.net, env.refresh);
      var r := if fork then T.AfterReconnect(s, k.net, env.refresh) else k.net;
      if !(fork && env.refresh.openFault.Some?) {
        var f := Offer(c, status.value, payload, env);
        OfferRegular(c, status.value, payload, env);
        EmitInStep(s, k, r, status.value, payload, Sent(f, Encode(f)), env);
        EmitEncoded(s, k, r, status.value, payload, Sent(f, Encode(f)), env);
        EmitEndsWithSession(s, k, r, status.value, payload, Sent(f, Encode(f)), env);
      }
    }
  }

  lemma ReconnectKeepsInv(s: Suite, k: Stack, pid: u32, net: T.Net)
    requires Inv(s, k)
    ensures Inv(s, Reconnect(s, k, pid, net))
  {
    ResetKeepsInv(s, k);
    ReconnectMatches(s, k.net, net);
    M.ApplyKeepsInv(k.agent, M.ReconnectEvent(net.openFault.None?, pid, 0));
  }

  /** A step of the transport that accepts nothing. */
  lemma CallbackKeepsInv(s: Suite, k: Stack, cb: T.Event)
    requires Lawful(s) && Inv(s, k) && (cb.ConnectCallback? || cb.ErrorCallback?)
    ensures Inv(s, k.(net := T.Apply(s, k.net, cb)))
  {
    T.ApplyKeepsInv(s, k.net, cb);
  }

  lemma ApplyKeepsInv(s: Suite, k: Stack, e: Event)
    requires Lawful(s) && Inv(s, k)
    ensures Inv(s, Apply(s, k, e))
  {
    match e
    case BeatCall(status, payload, env) =>
      BeatKeepsInv(s, k, status, payload, env);
    case ReconnectCall(pid, net) =>
      ReconnectKeepsInv(s, k, pid, net);
    case ThresholdCall(n) =>
      M.ApplyKeepsInv(k.agent, M.ThresholdEvent(n));
    case CloseCall =>
      ResetKeepsInv(s, k);
    case SocketCallback(cb) =>
      if cb.ConnectCallback? || cb.ErrorCallback? {
        CallbackKeepsInv(s, k, cb);
      }
  }

  lemma {:induction false} RunKeepsInv(s: Suite, k: Stack, events: seq<Event>)
    requires Lawful(s) && Inv(s, k)
    ensures Inv(s, Replay(s, k, events))
    decreases |events|
  {
    if events != [] {
      ApplyKeepsInv(s, k, events[0]);
      RunKeepsInv(s, Apply(s, k, events[0]), events[1..]);
    }
  }

  lemma TalkKeepsSecret(s: Suite, r: T.Run, c: M.Client, text: Bytes, env: Env)
    ensures Talk(s, r, c, text, env).run.t.secret == r.t.secret
  {
    T.SendKeepsSecret(s, r, text, env.pid, env.first);
    var r1 := Deliver(s, r, text, env.pid, env.first).0;
    T.SendKeepsSecret(s, T.AfterReconnect(s, r1, env.rebuild), text, env.pid, env.retry);
  }

  lemma ApplyKeepsSecret(s: Suite, k: Stack, e: Event)
    ensures Apply(s, k, e).net.t.secret == k.net.t.secret
  {
    match e
    case BeatCall(status, payload, env) =>
      if status.Some? {
        var c := k.agent.client;
        var text := Encode(Offer(c, status.value, payload, env));
        TalkKeepsSecret(s, T.AfterReconnect(s, k.net, env.refresh), Eager(c, env), text, env);
        TalkKeepsSecret(s, k.net, Eager(c, env), text, env);
      }
    case _ =>
  }

  lemma {:induction false} RunKeepsSecret(s: Suite, k: Stack, events: seq<Event>)
    ensures Replay(s, k, events).net.t.secret == k.net.t.secret
    decreases |events|
  {
    if events != [] {
      ApplyKeepsSecret(s, k, events[0]);
      RunKeepsSecret(s, Apply(s, k, events[0]), events[1..]);
    }
  }

  /** What a receiver with the key makes of a datagram. */
  function Receive(s: Suite, secret: T.Secret, wire: Bytes): Option<Frame> {
    var text := T.Unseal(s, secret, wire);
    if text.None? || |text.value| != 32 then None
    else
      match Decode(text.value)
      case Success(f) => Some(f)
      case Failure(_) => None
  }

  /** What a receiver should make of a beat. */
  function Expected(f: Frame): Option<Frame> {
    if f.pid >= 2 && f.timestamp != U64_MAX then Some(f) else None
  }

  lemma ReceiveEntry(s: Suite, k: Stack, i: nat)
    requires Lawful(s) && Inv(s, k) && i < |k.beats|
    ensures Receive(s, k.net.t.secret, k.net.accepted[i].wire) == Expected(k.beats[i].frame)
  {
    T.EntryOpens(s, k.net, i);
    assert Encoded(k.beats[i]);
    DecodeOfEncode(k.beats[i].frame);
  }

  lemma ReceiveAll(s: Suite, k: Stack)
    requires Lawful(s) && Inv(s, k)
    ensures var wires := k.net.transmitted + k.net.t.queue;
      && |wires| == |k.beats|
      && forall i :: 0 <= i < |wires| ==> Receive(s, k.net.t.secret, wires[i]) == Expected(k.beats[i].frame)
  {
    var wires := k.net.transmitted + k.net.t.queue;
    assert wires == T.Wires(k.net.accepted);
    forall i | 0 <= i < |wires|
      ensures Receive(s, k.net.t.secret, wires[i]) == Expected(k.beats[i].frame)
    {
      ReceiveEntry(s, k, i);
    }
  }

  /** For every schedule of beats, drops, reconnects, closes and socket callbacks, in
      shared and in master mode: opening and decoding the datagrams that reached the
      network gives, in order and without gaps, the first successful beats; the others
      are the ones still queued.  Only a reserved process id or a saturated clock makes a
      receiver refuse a beat. */
  lemma EndToEnd(s: Suite, secret: T.Secret, salt: T.Salt, pid: u32, now: int, events: seq<Event>)
    requires Lawful(s) && T.KeyOk(secret)
    ensures var k := Replay(s, Begin(s, secret, salt, pid, now), events);
      var wires := k.net.transmitted + k.net.t.queue;
      && |wires| == |k.beats|
      && forall i :: 0 <= i < |wires| ==> Receive(s, secret, wires[i]) == Expected(k.beats[i].frame)
  {
    BeginInv(s, secret, salt, pid, now);
    RunKeepsInv(s, Begin(s, secret, salt, pid, now), events);
    RunKeepsSecret(s, Begin(s, secret, salt, pid, now), events);
    ReceiveAll(s, Replay(s, Begin(s, secret, salt, pid, now), events));
  }
}
