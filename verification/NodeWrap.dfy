/** A schedule of the Node stack whose beat nonce wraps in mid-prefix. */
module NodeWrap {
  import opened Wrappers
  import opened Words
  import opened VlpFrame
  import opened SecureWire
  import M = BeatMachine
  import T = SecureTransport
  import K = NodeStack
  import N = NodeSessions
  import B = NodeBeats

  /** Process 2 beats at clock zero on a network without faults. */
  function Calm(salt: T.Salt): T.Net { T.Net(salt, None, None) }

  function CalmEnv(salt: T.Salt): K.Env { K.Env(2, 0, 0, Calm(salt), Calm(salt), Calm(salt), Calm(salt)) }

  /** An open, connected stack of process 2 after `n` beats at clock zero, all successful and
      all of one agent session. */
  predicate Steady(s: Suite, k: K.Stack, n: nat) {
    && K.Inv(s, k) && !k.closed && k.net.t.pendingError.None? && k.net.t.connected
    && |k.beats| == n && |k.agent.accepted| == n
    && IsCalm(k.agent.client)
    && forall i :: 0 <= i < n ==> k.beats[i].frame.pid == 2
  }

  predicate IsCalm(c: M.Client) { c.connectPid == 2 && c.connectForkEpoch == 0 && c.start == 0 && c.lastTimestamp == 0 }

  // ---- one beat -----------------------------------------------------------

  lemma CalmBeatSent(s: Suite, k: K.Stack, salt: T.Salt)
    requires Lawful(s) && T.NonceInv(s, k.net) && M.Tracks(k.agent) && !k.closed && IsCalm(k.agent.client)
    requires k.net.t.pendingError.None? && k.net.t.connected
    ensures |K.Beat(s, k, Some(Ok), 0, CalmEnv(salt)).beats| == |k.beats| + 1
  {
    B.BeatSentIff(s, k, Some(Ok), 0, CalmEnv(salt));
    assert T.Refusal(k.net.t, CalmEnv(salt).first).None?;
  }

  /** A calm beat, before the socket connects again if the session was replaced. */
  lemma CalmBeat(s: Suite, k: K.Stack, n: nat, salt: T.Salt)
    requires Lawful(s) && Steady(s, k, n)
    ensures var k' := K.Beat(s, k, Some(Ok), 0, CalmEnv(salt));
      && |k'.beats| == n + 1 && k'.beats[..n] == k.beats && k'.beats[n].frame.pid == 2
      && K.Inv(s, k')
  {
    CalmBeatSent(s, k, salt);
    B.BeatAdds(s, k, Some(Ok), 0, CalmEnv(salt));
    K.BeatKeepsInv(s, k, Some(Ok), 0, CalmEnv(salt));
  }

  lemma BeatKeepsIdentity(c: M.Client, status: Status, payload: u32, env: M.Env)
    requires !M.NeedsRefresh(c, env.pid, env.forkEpoch)
    ensures var z := M.Beat(c, status, payload, env).client;
      z.connectPid == c.connectPid && z.connectForkEpoch == c.connectForkEpoch && z.start == c.start
  {}

  /** A successful beat of process 2 at clock zero leaves the agent calm, one frame further. */
  lemma CalmAgent(r: M.Run, env: M.Env)
    requires IsCalm(r.client) && env.pid == 2 && env.forkEpoch == 0 && env.now == 0
    requires M.Beat(r.client, Ok, 0, env).outcome == M.Sent
    ensures var z := M.Apply(r, M.BeatEvent(Ok, 0, env)); IsCalm(z.client) && |z.accepted| == |r.accepted| + 1
  {
    M.RefreshBeforeSend(r.client, Ok, 0, env);
    M.BeatCarries(r.client, Ok, 0, env, 0);
    BeatKeepsIdentity(r.client, Ok, 0, env);
  }

  /** What a calm send does to a connected transport: it stays calm; and until the prefix is
      used up, it takes the next slot of the same session and prefix. */
  predicate Advanced(r: T.Run, r': T.Run) {
    && r'.t.pendingError.None?
    && |r'.accepted| == |r.accepted| + 1 && r'.accepted[..|r.accepted|] == r.accepted
    && (r.t.counter < U32_MAX ==>
          var e := r'.accepted[|r.accepted|];
          && r'.session == r.session == e.session && r'.t.salt == r.t.salt == e.salt
          && r'.t.prefixIndex == r.t.prefixIndex == e.prefixIndex
          && e.counter == r.t.counter && r'.t.counter == r.t.counter + 1)
  }

  lemma CalmSend(s: Suite, r: T.Run, text: Bytes, salt: T.Salt)
    requires Lawful(s) && B.CanSeal(r.t) && |text| == PLAINTEXT_BYTES && r.t.connected && r.t.pendingError.None?
    ensures Advanced(r, T.AfterSend(r, T.Send(s, r.t, text, 2, Calm(salt)), text, 2, Calm(salt)))
  {
    T.ThrowsIff(s, r.t, text, 2, Calm(salt));
    assert T.Refusal(r.t, Calm(salt)).None?;
    if r.t.counter < U32_MAX {
      PlainSend(s, r.t, text, salt);
    }
  }

  /** Until the prefix is used up, a send takes its next slot. */
  lemma PlainSend(s: Suite, t: T.Transport, text: Bytes, salt: T.Salt)
    requires t.connected && t.pendingError.None? && t.counter < U32_MAX && |text| == PLAINTEXT_BYTES
    requires T.Send(s, t, text, 2, Calm(salt)).Accepted?
    ensures var b := T.Send(s, t, text, 2, Calm(salt));
      b.transport == t.(counter := t.counter + 1) && b.prefixIndex == t.prefixIndex && b.counter == t.counter && !b.rotated
  {
    assert (t.counter + 1) % T.U32_MODULUS == t.counter + 1;
  }

  lemma CalmTalk(s: Suite, r: T.Run, c: M.Client, text: Bytes, salt: T.Salt)
    requires Lawful(s) && B.CanSeal(r.t) && |text| == PLAINTEXT_BYTES && r.t.connected && r.t.pendingError.None?
    ensures Advanced(r, K.Talk(s, r, c, text, CalmEnv(salt)).run)
  {
    CalmSend(s, r, text, salt);
    B.DeliverIff(s, r, text, 2, Calm(salt));
    assert T.Refusal(r.t, Calm(salt)).None?;
  }

  /** The whole effect of a calm beat. */
  lemma CalmEmit(s: Suite, k: K.Stack, n: nat, salt: T.Salt)
    requires Lawful(s) && Steady(s, k, n)
    ensures var k' := K.Beat(s, k, Some(Ok), 0, CalmEnv(salt));
      IsCalm(k'.agent.client) && |k'.agent.accepted| == n + 1 && !k'.closed && Advanced(k.net, k'.net)
  {
    var c, env := k.agent.client, CalmEnv(salt);
    var f := K.Offer(c, Ok, 0, env);
    var x := K.Talk(s, k.net, K.Eager(c, env), Encode(f), env);
    CalmBeat(s, k, n, salt);
    B.StackCanSeal(s, k, Calm(salt));
    CalmTalk(s, k.net, K.Eager(c, env), Encode(f), salt);
    CalmAgent(k.agent, K.Seen(env, true, x));
  }

  /** The socket connects. */
  lemma Connected(s: Suite, k: K.Stack)
    ensures var k' := K.Apply(s, k, K.SocketCallback(T.ConnectCallback(k.net.t.socket)));
      && k'.agent == k.agent && k'.beats == k.beats && k'.closed == k.closed
      && k'.net.accepted == k.net.accepted && k'.net.session == k.net.session
      && k'.net.t == k.net.t.(connected := true, queue := [])
  {}

  lemma ConnectedInv(s: Suite, k: K.Stack)
    requires Lawful(s) && K.Inv(s, k)
    ensures K.Inv(s, K.Apply(s, k, K.SocketCallback(T.ConnectCallback(k.net.t.socket))))
  {
    K.ApplyKeepsInv(s, k, K.SocketCallback(T.ConnectCallback(k.net.t.socket)));
  }

  // ---- turns and renewals -------------------------------------------------

  function Connect(s: Suite, k: K.Stack): K.Stack { K.Apply(s, k, K.SocketCallback(T.ConnectCallback(k.net.t.socket))) }

  /** One beat, after which the socket is connected. */
  function Turn(s: Suite, k: K.Stack, salt: T.Salt): K.Stack {
    Connect(s, K.Apply(s, k, K.BeatCall(Some(Ok), 0, CalmEnv(salt))))
  }

  /** One explicit reconnect, after which the socket is connected. */
  function Renewal(s: Suite, k: K.Stack, salt: T.Salt): K.Stack {
    Connect(s, K.Apply(s, k, K.ReconnectCall(2, Calm(salt))))
  }

  /** What a calm beat leaves is steady once the socket connects. */
  lemma BecomesSteady(s: Suite, k: K.Stack, z: K.Stack, n: nat)
    requires Lawful(s) && K.Inv(s, z) && !z.closed && Advanced(k.net, z.net) && |k.net.accepted| == n
    requires |z.beats| == n + 1 && |z.agent.accepted| == n + 1 && IsCalm(z.agent.client)
    requires forall i :: 0 <= i < n + 1 ==> z.beats[i].frame.pid == 2
    ensures Steady(s, Connect(s, z), n + 1) && Advanced(k.net, Connect(s, z).net)
  {
    Connected(s, z);
    ConnectedInv(s, z);
  }

  lemma PidsExtend(before: seq<K.Sent>, after: seq<K.Sent>)
    requires |after| == |before| + 1 && after[..|before|] == before && after[|before|].frame.pid == 2
    requires forall i :: 0 <= i < |before| ==> before[i].frame.pid == 2
    ensures forall i :: 0 <= i < |after| ==> after[i].frame.pid == 2
  {
    forall i | 0 <= i < |before|
      ensures after[i] == before[i]
    {
      assert after[i] == after[..|before|][i];
    }
  }

  lemma TurnSteady(s: Suite, k: K.Stack, n: nat, salt: T.Salt)
    requires Lawful(s) && Steady(s, k, n)
    ensures var k' := Turn(s, k, salt); Steady(s, k', n + 1) && Advanced(k.net, k'.net)
  {
    var z := K.Beat(s, k, Some(Ok), 0, CalmEnv(salt));
    CalmBeat(s, k, n, salt);
    CalmEmit(s, k, n, salt);
    PidsExtend(k.beats, z.beats);
    BecomesSteady(s, k, z, n);
  }

  /** A renewed session starts at its first slot and goes on with the agent's nonces. */
  predicate Renewed(r: T.Run, r': T.Run) {
    && r'.accepted == r.accepted && r'.session == r.session + 1
    && r'.t.prefixIndex == 0 && r'.t.counter == 0
  }

  lemma RenewalSteady(s: Suite, k: K.Stack, n: nat, salt: T.Salt)
    requires Lawful(s) && Steady(s, k, n)
    ensures var k' := Renewal(s, k, salt); Steady(s, k', n) && Renewed(k.net, k'.net)
  {
    K.ReconnectKeepsInv(s, k, 2, Calm(salt));
    Connected(s, K.Apply(s, k, K.ReconnectCall(2, Calm(salt))));
    ConnectedInv(s, K.Apply(s, k, K.ReconnectCall(2, Calm(salt))));
  }

  // ---- schedules ----------------------------------------------------------

  lemma TwoMore(s: Suite, k: K.Stack, events: seq<K.Event>, a: K.Event, b: K.Event)
    ensures K.Replay(s, k, events + [a] + [b]) == K.Apply(s, K.Apply(s, K.Replay(s, k, events), a), b)
  {
    K.ReplayLast(s, k, events, a);
    K.ReplayLast(s, k, events + [a], b);
  }

  lemma AddTurn(s: Suite, k0: K.Stack, events: seq<K.Event>, salt: T.Salt) returns (more: seq<K.Event>)
    ensures K.Replay(s, k0, more) == Turn(s, K.Replay(s, k0, events), salt)
  {
    var a := K.BeatCall(Some(Ok), 0, CalmEnv(salt));
    var b := K.SocketCallback(T.ConnectCallback(K.Apply(s, K.Replay(s, k0, events), a).net.t.socket));
    TwoMore(s, k0, events, a, b);
    more := events + [a] + [b];
  }

  lemma AddRenewal(s: Suite, k0: K.Stack, events: seq<K.Event>, salt: T.Salt) returns (more: seq<K.Event>)
    ensures K.Replay(s, k0, more) == Renewal(s, K.Replay(s, k0, events), salt)
  {
    var a := K.ReconnectCall(2, Calm(salt));
    var b := K.SocketCallback(T.ConnectCallback(K.Apply(s, K.Replay(s, k0, events), a).net.t.socket));
    TwoMore(s, k0, events, a, b);
    more := events + [a] + [b];
  }

  /** The stack can beat any number of times; `random` gives the randomness of each turn. */
  lemma {:induction false} ManyTurns(s: Suite, k0: K.Stack, events: seq<K.Event>, n: nat, random: nat -> T.Salt)
    returns (more: seq<K.Event>)
    requires Lawful(s) && Steady(s, K.Replay(s, k0, events), 0)
    ensures Steady(s, K.Replay(s, k0, more), n)
    decreases n
  {
    if n == 0 {
      more := events;
    } else {
      more := ManyTurns(s, k0, events, n - 1, random);
      TurnSteady(s, K.Replay(s, k0, more), n - 1, random(n));
      more := AddTurn(s, k0, more, random(n));
    }
  }

  // ---- the wrap -----------------------------------------------------------

  /** The last beat before the wrap and the first after it share a prefix; two further beats
      are of two further sessions. */
  predicate Wrapped(accepted: seq<T.Entry>) {
    var n := M.NONCE_MODULUS - 2;
    && |accepted| == n + 4
    && accepted[n].session == accepted[n + 1].session < accepted[n + 2].session < accepted[n + 3].session
    && accepted[n].salt == accepted[n + 1].salt && accepted[n].prefixIndex == accepted[n + 1].prefixIndex == 0
    && accepted[n].counter == 0 && accepted[n + 1].counter == 1
  }

  /** Renew, two turns, renew, turn, renew, turn. */
  function Tail(s: Suite, k: K.Stack, random: nat -> T.Salt): K.Stack {
    var k1 := Turn(s, Renewal(s, k, random(0)), random(1));
    var k2 := Turn(s, k1, random(2));
    var k3 := Turn(s, Renewal(s, k2, random(3)), random(4));
    Turn(s, Renewal(s, k3, random(5)), random(6))
  }

  lemma FirstTurn(s: Suite, k: K.Stack, n: nat, a: T.Salt, b: T.Salt)
    requires Lawful(s) && Steady(s, k, n)
    ensures var k' := Turn(s, Renewal(s, k, a), b);
      && Steady(s, k', n + 1) && |k.net.accepted| == n && |k'.net.accepted| == n + 1
      && k'.net.accepted[..n] == k.net.accepted
      && var e := k'.net.accepted[n];
         && e.session == k'.net.session == k.net.session + 1 && e.salt == k'.net.t.salt
         && e.prefixIndex == 0 == k'.net.t.prefixIndex && e.counter == 0 && k'.net.t.counter == 1
  {
    RenewalSteady(s, k, n, a);
    TurnSteady(s, Renewal(s, k, a), n, b);
  }

  lemma TailWraps(s: Suite, k: K.Stack, random: nat -> T.Salt)
    requires Lawful(s) && Steady(s, k, M.NONCE_MODULUS - 2)
    ensures var z := Tail(s, k, random); Steady(s, z, M.NONCE_MODULUS + 2) && Wrapped(z.net.accepted)
  {
    var n := M.NONCE_MODULUS - 2;
    FirstTurn(s, k, n, random(0), random(1));
    var k1 := Turn(s, Renewal(s, k, random(0)), random(1));
    TurnSteady(s, k1, n + 1, random(2));
    var k2 := Turn(s, k1, random(2));
    FirstTurn(s, k2, n + 2, random(3), random(4));
    var k3 := Turn(s, Renewal(s, k2, random(3)), random(4));
    FirstTurn(s, k3, n + 3, random(5), random(6));
    var z := Tail(s, k, random);
    assert z.net.accepted[..n + 3] == k3.net.accepted && k3.net.accepted[..n + 2] == k2.net.accepted;
    assert k2.net.accepted[..n + 1] == k1.net.accepted;
  }

  /** For every lawful suite, key and randomness, a schedule whose beat nonce wraps between two
      beats of one prefix. */
  lemma WrapRun(s: Suite, secret: T.Secret, salt: T.Salt, random: nat -> T.Salt) returns (schedule: seq<K.Event>)
    requires Lawful(s) && T.KeyOk(secret)
    ensures var k := K.Replay(s, K.Begin(s, secret, salt, 2, 0), schedule);
      Steady(s, k, M.NONCE_MODULUS + 2) && Wrapped(k.net.accepted)
  {
    var k0 := K.Begin(s, secret, salt, 2, 0);
    K.BeginInv(s, secret, salt, 2, 0);
    Connected(s, k0);
    ConnectedInv(s, k0);
    var start := K.SocketCallback(T.ConnectCallback(0));
    assert K.Replay(s, k0, []) == k0;
    K.ReplayLast(s, k0, [], start);
    schedule := ManyTurns(s, k0, [] + [start], M.NONCE_MODULUS - 2, i => random(i + 7));
    TailWraps(s, K.Replay(s, k0, schedule), random);
    schedule := AddRenewal(s, k0, schedule, random(0));
    schedule := AddTurn(s, k0, schedule, random(1));
    schedule := AddTurn(s, k0, schedule, random(2));
    schedule := AddRenewal(s, k0, schedule, random(3));
    schedule := AddTurn(s, k0, schedule, random(4));
    schedule := AddRenewal(s, k0, schedule, random(5));
    schedule := AddTurn(s, k0, schedule, random(6));
  }

  /** Every frame of a steady stack is of process 2 at clock zero, with the nonces in turn. */
  lemma SteadyFrames(s: Suite, k: K.Stack, n: nat, i: nat)
    requires Steady(s, k, n) && i < n
    ensures var f := k.beats[i].frame;
      f.pid == 2 && f.timestamp == 0 && f.nonce == (i + 1) % M.NONCE_MODULUS && f.nonce != NONCE_TERMINAL
  {
    var f, last := k.beats[i].frame, k.agent.accepted[n - 1];
    assert f == k.agent.accepted[i] && K.Encoded(k.beats[i]);
    assert f.timestamp <= last.timestamp;
  }
}
