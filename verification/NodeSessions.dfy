/** How the beats of the Node stack are spread over transport sessions: within one session
    nonces follow one another and the process id stays the same, because whatever restarts
    the nonces also replaces the session. */
module NodeSessions {
  import opened Wrappers
  import opened Words
  import opened VlpFrame
  import opened SecureWire
  import M = BeatMachine
  import T = SecureTransport
  import K = NodeStack

  predicate Follows(f: Frame, g: Frame) {
    g.nonce == M.NextNonce(f.nonce).0 && g.pid == f.pid
  }

  /** Successive beats of one transport session follow one another. */
  predicate Chained(accepted: seq<T.Entry>, beats: seq<K.Sent>)
    requires |accepted| == |beats|
  {
    forall i :: 0 < i < |beats| && accepted[i - 1].session == accepted[i].session ==>
      Follows(beats[i - 1].frame, beats[i].frame)
  }

  /** If the last beat is of the current session, the client is where that beat left it. */
  predicate Linked(c: M.Client, session: nat, accepted: seq<T.Entry>, beats: seq<K.Sent>)
    requires |accepted| == |beats|
  {
    beats != [] && accepted[|beats| - 1].session == session ==>
      var f := beats[|beats| - 1].frame; c.nonce == f.nonce && c.connectPid == f.pid
  }

  predicate Flow(k: K.Stack) {
    && |k.net.accepted| == |k.beats|
    && (forall i :: 0 <= i < |k.beats| ==> k.net.accepted[i].session <= k.net.session)
    && Chained(k.net.accepted, k.beats)
    && Linked(k.agent.client, k.net.session, k.net.accepted, k.beats)
  }

  /** What a transport exchange does to the list of accepted datagrams. */
  predicate Grows(r: T.Run, x: T.Run, delivered: bool) {
    && x.session >= r.session
    && if delivered
       then |x.accepted| == |r.accepted| + 1 && x.accepted[..|r.accepted|] == r.accepted
            && x.accepted[|r.accepted|].session == x.session
       else x.accepted == r.accepted
  }

  lemma TalkGrows(s: Suite, r: T.Run, c: M.Client, text: Bytes, env: K.Env)
    ensures var x := K.Talk(s, r, c, text, env); Grows(r, x.run, K.Delivered(x))
  {}

  /** A beat, in terms of the client it is ready with and the client it leaves. */
  lemma FlowExtends(k: K.Stack, r: T.Run, x: T.Run, ready: M.Client, c': M.Client, one: K.Sent, delivered: bool)
    requires Flow(k) && Grows(r, x, delivered) && r.accepted == k.net.accepted && r.session >= k.net.session
    requires r.session == k.net.session ==>
      ready.nonce == k.agent.client.nonce && ready.connectPid == k.agent.client.connectPid
    requires one.frame.nonce == M.NextNonce(ready.nonce).0 && one.frame.pid == ready.connectPid
    requires c'.connectPid == ready.connectPid && c'.nonce == if delivered then one.frame.nonce else ready.nonce
    ensures var beats := if delivered then k.beats + [one] else k.beats;
      && |x.accepted| == |beats|
      && (forall i :: 0 <= i < |beats| ==> x.accepted[i].session <= x.session)
      && Chained(x.accepted, beats) && Linked(c', x.session, x.accepted, beats)
  {
    if delivered {
      assert forall i :: 0 <= i < |r.accepted| ==> x.accepted[i] == r.accepted[i];
    }
  }

  /** What settling a frame leaves of the client. */
  lemma SettleKeeps(c: M.Client, f: Frame, env: M.Env)
    ensures var b := M.Settle(c, f, env);
      b.client.connectPid == c.connectPid && b.client.nonce == if b.outcome == M.Sent then f.nonce else c.nonce
  {}

  lemma EmitKeepsFlow(s: Suite, k: K.Stack, r: T.Run, status: Status, payload: u32, one: K.Sent, env: K.Env)
    requires Flow(k) && r.accepted == k.net.accepted && r.session >= k.net.session && status != Stall
    requires r.session == k.net.session ==> !M.NeedsRefresh(k.agent.client, env.pid, 0)
    requires one.frame == K.Offer(k.agent.client, status, payload, env)
    ensures Flow(K.Emit(s, k, r, status, payload, one, env))
  {
    var c, ready := k.agent.client, K.Ready(k.agent.client, env);
    var x := K.Talk(s, r, K.Eager(c, env), one.text, env);
    TalkGrows(s, r, K.Eager(c, env), one.text, env);
    K.SentIffDelivered(s, r, c, status, payload, one.text, env);
    K.EmitShape(s, k, r, status, payload, one, env);
    SettleKeeps(K.Eager(c, env), one.frame, K.Seen(env, true, x));
    FlowExtends(k, r, x.run, ready, K.Emit(s, k, r, status, payload, one, env).agent.client, one, K.Delivered(x));
  }

  lemma BeatKeepsFlow(s: Suite, k: K.Stack, status: Option<Status>, payload: u32, env: K.Env)
    requires Flow(k)
    ensures Flow(K.Beat(s, k, status, payload, env))
  {
    if status.Some? && status != Some(Stall) && !k.closed {
      var c := k.agent.client;
      var fork := M.NeedsRefresh(c, env.pid, 0);
      var r := if fork then T.AfterReconnect(s, k.net, env.refresh) else k.net;
      if !(fork && env.refresh.openFault.Some?) {
        var f := K.Offer(c, status.value, payload, env);
        EmitKeepsFlow(s, k, r, status.value, payload, K.Sent(f, Encode(f)), env);
      }
    }
  }

  lemma ApplyKeepsFlow(s: Suite, k: K.Stack, e: K.Event)
    requires Flow(k)
    ensures Flow(K.Apply(s, k, e))
  {
    if e.BeatCall? {
      BeatKeepsFlow(s, k, e.status, e.payload, e.env);
    }
  }

  lemma {:induction false} RunKeepsFlow(s: Suite, k: K.Stack, events: seq<K.Event>)
    requires Flow(k)
    ensures Flow(K.Replay(s, k, events))
    decreases |events|
  {
    if events != [] {
      ApplyKeepsFlow(s, k, events[0]);
      RunKeepsFlow(s, K.Apply(s, k, events[0]), events[1..]);
    }
  }

  /** Before the nonce wraps: beats of one transport session have rising nonces and one
      process id. */
  lemma {:induction false} SessionNoncesRise(s: Suite, k: K.Stack, i: nat, j: nat)
    requires T.NonceInv(s, k.net) && Flow(k) && i < j < |k.beats|
    requires k.net.accepted[i].session == k.net.accepted[j].session
    requires forall m :: i < m <= j ==> k.beats[m].frame.nonce != 0
    ensures k.beats[i].frame.nonce < k.beats[j].frame.nonce && k.beats[i].frame.pid == k.beats[j].frame.pid
    decreases j
  {
    assert k.net.accepted[i].session <= k.net.accepted[j - 1].session <= k.net.accepted[j].session by {
      assert T.SessionsInOrder(k.net.accepted, k.net.drawn);
    }
    assert Follows(k.beats[j - 1].frame, k.beats[j].frame);
    if i < j - 1 {
      SessionNoncesRise(s, k, i, j - 1);
    }
  }
}
