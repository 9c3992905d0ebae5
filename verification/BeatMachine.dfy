/** The agent's beat state machine: nonce and timestamp candidates that are committed
    only when the transport accepts the frame, fork refresh, and auto-reconnect. */
module BeatMachine {
  import opened Words
  import opened VlpFrame

  /** Regular nonces run through the residues of this modulus, so they skip the
      terminal sentinel. */
  const NONCE_MODULUS: nat := U64_MAX

  datatype Client = Client(
    nonce: u64,
    start: int,
    lastTimestamp: u64,
    consecutiveDropped: nat,
    reconnectAfter: nat,
    clockRegressions: u64,
    connectPid: u32,
    connectForkEpoch: u64,
    forkRecoveries: u64,
    dropMax: nat)          // where the drop counter saturates

  datatype SendOutcome = Sent | Dropped | Failed

  /** What a transport write reports: a byte count or a classified error. */
  datatype Reply = Wrote(count: nat) | DropError | HardError

  /** Everything a beat observes outside the client. */
  datatype Env = Env(
    pid: u32,
    forkEpoch: u64,
    refreshed: bool,     // the transport refresh after a fork succeeds
    restart: int,        // clock read when a refreshed session restarts
    now: int,            // clock read for the timestamp
    expectedLen: nat,    // bytes of one fully accepted datagram
    first: Reply,
    reconnected: bool,   // the auto-reconnect succeeds
    retry: Reply)

  datatype Attempt = Attempt(frame: Frame, outcome: SendOutcome)

  /** A beat's effect: the new client, the reported outcome, the datagrams handed to
      the transport in order, whether the transport was refreshed after a fork, and
      whether an auto-reconnect was tried. */
  datatype BeatResult = BeatResult(
    client: Client, outcome: SendOutcome, attempts: seq<Attempt>, refresh: bool, tried: bool)

  function Connect(pid: u32, forkEpoch: u64, now: int, dropMax: nat): Client {
    Client(0, now, 0, 0, 0, 0, pid, forkEpoch, 0, dropMax)
  }

  /** Nanoseconds since `start`, clamped to the unsigned 64-bit range. */
  function Elapsed(start: int, now: int): u64 {
    Min(SaturatingSub(now, start), U64_MAX)
  }

  function SendFrame(reply: Reply, expectedLen: nat): SendOutcome {
    match reply
    case Wrote(n) => if n == expectedLen then Sent else Failed
    case DropError => Dropped
    case HardError => Failed
  }

  function NextNonce(nonce: u64): (u64, bool) {
    if nonce < NONCE_TERMINAL - 1 then (nonce + 1, false) else (0, true)
  }

  predicate NeedsRefresh(c: Client, pid: u32, forkEpoch: u64) {
    pid != c.connectPid || forkEpoch != c.connectForkEpoch
  }

  function Refreshed(c: Client, env: Env): Client {
    c.(connectPid := env.pid, connectForkEpoch := env.forkEpoch,
       forkRecoveries := SaturatingInc(c.forkRecoveries, U64_MAX),
       nonce := 0, start := env.restart, lastTimestamp := 0, consecutiveDropped := 0)
  }

  /** The frame a beat offers to the transport. */
  function Candidate(c: Client, status: Status, payload: u32, env: Env): Frame {
    NewFrame(status, env.pid, Max(c.lastTimestamp, Elapsed(c.start, env.now)), NextNonce(c.nonce).0, payload)
  }

  function Observed(c: Client, env: Env): Client {
    if Elapsed(c.start, env.now) < c.lastTimestamp
    then c.(clockRegressions := SaturatingInc(c.clockRegressions, U64_MAX))
    else c
  }

  function Commit(c: Client, f: Frame): Client {
    c.(nonce := f.nonce, lastTimestamp := f.timestamp)
  }

  /** Send the frame, commit it if accepted, and count drops towards a reconnect. */
  function Settle(c: Client, f: Frame, env: Env): BeatResult {
    var idle := c.(consecutiveDropped := 0);
    match SendFrame(env.first, env.expectedLen)
    case Sent => BeatResult(Commit(idle, f), Sent, [Attempt(f, Sent)], false, false)
    case Failed => BeatResult(idle, Failed, [Attempt(f, Failed)], false, false)
    case Dropped =>
      var drops := SaturatingInc(c.consecutiveDropped, c.dropMax);
      if c.reconnectAfter == 0 || drops < c.reconnectAfter then
        BeatResult(c.(consecutiveDropped := drops), Dropped, [Attempt(f, Dropped)], false, false)
      else if !env.reconnected then
        BeatResult(idle, Dropped, [Attempt(f, Dropped)], false, true)
      else
        var again := SendFrame(env.retry, env.expectedLen);
        BeatResult(if again == Sent then Commit(idle, f) else idle, again,
                   [Attempt(f, Dropped), Attempt(f, again)], false, true)
  }

  function Emit(c: Client, status: Status, payload: u32, env: Env): BeatResult {
    Settle(Observed(c, env), Candidate(c, status, payload, env), env)
  }

  function Beat(c: Client, status: Status, payload: u32, env: Env): BeatResult {
    if status == Stall then
      BeatResult(c.(consecutiveDropped := 0), Failed, [], false, false)
    else if !NeedsRefresh(c, env.pid, env.forkEpoch) then
      Emit(c, status, payload, env)
    else if env.refreshed then
      Emit(Refreshed(c, env), status, payload, env).(refresh := true)
    else
      BeatResult(c, Failed, [], false, false)
  }

  /** A beat that gets past its checks emits from the session it is ready in. */
  lemma BeatIsEmit(c: Client, ready: Client, status: Status, payload: u32, env: Env)
    requires status != Stall
    requires if NeedsRefresh(c, env.pid, env.forkEpoch) then env.refreshed && ready == Refreshed(c, env) else ready == c
    ensures var b, e := Beat(c, status, payload, env), Settle(Observed(ready, env), Candidate(ready, status, payload, env), env);
      b.client == e.client && b.outcome == e.outcome && b.attempts == e.attempts
  {}

  /** An explicit reconnect keeps the agent's identity and refreshes its snapshots. */
  function Reconnect(c: Client, ok: bool, pid: u32, forkEpoch: u64): Client {
    if ok then c.(connectPid := pid, connectForkEpoch := forkEpoch, consecutiveDropped := 0) else c
  }

  function SetReconnectAfter(c: Client, n: nat): Client {
    c.(reconnectAfter := n, consecutiveDropped := 0)
  }

  // ---- runs ---------------------------------------------------------------

  datatype Event =
    | BeatEvent(status: Status, payload: u32, env: Env)
    | ReconnectEvent(ok: bool, pid: u32, forkEpoch: u64)
    | ThresholdEvent(n: nat)

  /** A client with the history an outside observer could have kept: the clock read when the
      session began, the process and epoch that last opened the transport, the threshold set
      last; the frames accepted since connect or the last fork recovery; the first attempts
      dropped and the auto-reconnects tried since the threshold was set; the beats whose
      clock fell behind the last accepted timestamp; the drops in a row; and the fork
      recoveries. */
  datatype Run = Run(
    client: Client, base: int, home: (u32, u64), threshold: nat, accepted: seq<Frame>,
    firstDrops: nat, autoReconnects: nat, regressions: nat, streak: nat, recoveries: nat)

  function LastAccepted(accepted: seq<Frame>): u64 {
    if accepted == [] then 0 else accepted[|accepted| - 1].timestamp
  }

  /** The time since `base` is below `last`, where a clock behind `base` counts as zero. */
  predicate IsBehind(base: int, now: int, last: u64) { last > 0 && now < base + last }

  /** Note a beat that reached the transport. */
  function Note(r: Run, b: BeatResult, now: int): Run
    requires b.attempts != []
  {
    var dropped := b.attempts[0].outcome == Dropped;
    r.(client := b.client,
       accepted := if b.outcome == Sent then r.accepted + [b.attempts[0].frame] else r.accepted,
       firstDrops := if dropped then r.firstDrops + 1 else r.firstDrops,
       autoReconnects := if b.tried then r.autoReconnects + 1 else r.autoReconnects,
       regressions := if IsBehind(r.base, now, LastAccepted(r.accepted)) then r.regressions + 1 else r.regressions,
       streak := if dropped && !b.tried then r.streak + 1 else 0)
  }

  /** A fork recovery begins a session. */
  function Recovered(r: Run, env: Env): Run {
    r.(base := env.restart, home := (env.pid, env.forkEpoch), accepted := [], streak := 0, recoveries := r.recoveries + 1)
  }

  function Apply(r: Run, e: Event): Run {
    match e
    case BeatEvent(status, payload, env) =>
      var b := Beat(r.client, status, payload, env);
      if b.attempts == [] then r.(client := b.client, streak := if status == Stall then 0 else r.streak)
      else Note(if b.refresh then Recovered(r, env) else r, b, env.now)
    case ReconnectEvent(ok, pid, forkEpoch) =>
      var z := r.(client := Reconnect(r.client, ok, pid, forkEpoch));
      if ok then z.(home := (pid, forkEpoch), streak := 0) else z
    case ThresholdEvent(n) =>
      r.(client := SetReconnectAfter(r.client, n), threshold := n, firstDrops := 0, autoReconnects := 0, streak := 0)
  }

  function Replay(r: Run, events: seq<Event>): Run
    decreases |events|
  {
    if events == [] then r else Replay(Apply(r, events[0]), events[1..])
  }

  function Begin(pid: u32, forkEpoch: u64, now: int, dropMax: nat): Run {
    Run(Connect(pid, forkEpoch, now, dropMax), now, (pid, forkEpoch), 0, [], 0, 0, 0, 0, 0)
  }

  /** The k-th accepted frame, counting from one, carries nonce k modulo 2^64 - 1. */
  predicate NoncesFollow(accepted: seq<Frame>) {
    forall i :: 0 <= i < |accepted| ==> accepted[i].nonce == (i + 1) % NONCE_MODULUS
  }

  predicate TimestampsRise(accepted: seq<Frame>) {
    forall i, j :: 0 <= i <= j < |accepted| ==> accepted[i].timestamp <= accepted[j].timestamp
  }

  /** Nonce and timestamp follow the frames accepted in this session. */
  predicate InSession(c: Client, accepted: seq<Frame>) {
    && c.nonce == |accepted| % NONCE_MODULUS
    && NoncesFollow(accepted)
    && c.lastTimestamp == LastAccepted(accepted)
    && TimestampsRise(accepted)
  }

  /** The client's fields are what its history says. */
  predicate Tracks(r: Run) {
    var c := r.client;
    && c.start == r.base && (c.connectPid, c.connectForkEpoch) == r.home && c.reconnectAfter == r.threshold
    && c.consecutiveDropped == Min(r.streak, c.dropMax)
    && c.clockRegressions == Min(r.regressions, U64_MAX)
    && c.forkRecoveries == Min(r.recoveries, U64_MAX)
  }

  /** Every auto-reconnect is paid for by as many dropped first attempts as the threshold
      says. */
  predicate Counted(r: Run) {
    var drops := r.client.consecutiveDropped;
    && r.client.reconnectAfter * r.autoReconnects + drops <= r.firstDrops
    && (r.client.reconnectAfter > 0 ==> drops < r.client.reconnectAfter)
  }

  /** What every run keeps. */
  predicate Inv(r: Run) {
    InSession(r.client, r.accepted) && Tracks(r) && Counted(r)
  }

  lemma ModSucc(k: nat)
    ensures (k + 1) % NONCE_MODULUS ==
      if k % NONCE_MODULUS < NONCE_MODULUS - 1 then k % NONCE_MODULUS + 1 else 0
  {
    var q, m := k / NONCE_MODULUS, k % NONCE_MODULUS;
    if m < NONCE_MODULUS - 1 {
      assert k + 1 == NONCE_MODULUS * q + (m + 1);
    } else {
      assert k + 1 == NONCE_MODULUS * (q + 1);
    }
  }

  /** Accepting the candidate extends the session as promised. */
  lemma AcceptExtends(c: Client, accepted: seq<Frame>, status: Status, payload: u32, env: Env)
    requires InSession(c, accepted)
    ensures var f := Candidate(c, status, payload, env); InSession(Commit(c, f), accepted + [f])
  {
    ModSucc(|accepted|);
  }

  lemma Threshold(n: nat, a: nat)
    ensures n * (a + 1) == n * a + n
  {}

  lemma EmitKeepsSession(r: Run, status: Status, payload: u32, env: Env)
    requires InSession(r.client, r.accepted)
    ensures var n := Note(r, Emit(r.client, status, payload, env), env.now); InSession(n.client, n.accepted)
  {
    AcceptExtends(r.client, r.accepted, status, payload, env);
  }

  lemma EmitKeepsCounts(r: Run, status: Status, payload: u32, env: Env)
    requires Counted(r)
    ensures Counted(Note(r, Emit(r.client, status, payload, env), env.now))
  {
    Threshold(r.client.reconnectAfter, r.autoReconnects);
  }

  lemma EmitKeepsTrack(r: Run, status: Status, payload: u32, env: Env)
    requires Tracks(r) && r.client.lastTimestamp == LastAccepted(r.accepted)
    ensures Tracks(Note(r, Emit(r.client, status, payload, env), env.now))
  {}

  lemma EmitKeepsInv(r: Run, status: Status, payload: u32, env: Env)
    requires Inv(r)
    ensures Inv(Note(r, Emit(r.client, status, payload, env), env.now))
  {
    EmitKeepsSession(r, status, payload, env);
    EmitKeepsCounts(r, status, payload, env);
    EmitKeepsTrack(r, status, payload, env);
  }

  lemma BeatInPlace(r: Run, status: Status, payload: u32, env: Env)
    requires Inv(r) && status != Stall && !NeedsRefresh(r.client, env.pid, env.forkEpoch)
    ensures Inv(Apply(r, BeatEvent(status, payload, env)))
  {
    EmitKeepsInv(r, status, payload, env);
    InPlaceNotes(r, status, payload, env);
  }

  lemma InPlaceNotes(r: Run, status: Status, payload: u32, env: Env)
    requires status != Stall && !NeedsRefresh(r.client, env.pid, env.forkEpoch)
    ensures Apply(r, BeatEvent(status, payload, env)) == Note(r, Emit(r.client, status, payload, env), env.now)
  {}

  lemma RecoveredInv(r: Run, env: Env)
    requires Inv(r)
    ensures Inv(Recovered(r, env).(client := Refreshed(r.client, env)))
  {}

  lemma BeatRefreshed(r: Run, status: Status, payload: u32, env: Env)
    requires Inv(r) && status != Stall && NeedsRefresh(r.client, env.pid, env.forkEpoch) && env.refreshed
    ensures Inv(Apply(r, BeatEvent(status, payload, env)))
  {
    var anew := Recovered(r, env).(client := Refreshed(r.client, env));
    RecoveredInv(r, env);
    EmitKeepsInv(anew, status, payload, env);
    var b := Emit(anew.client, status, payload, env);
    assert Note(Recovered(r, env), b.(refresh := true), env.now) == Note(anew, b, env.now);
  }

  lemma ApplyKeepsInv(r: Run, e: Event)
    requires Inv(r)
    ensures Inv(Apply(r, e))
  {
    match e
    case BeatEvent(status, payload, env) =>
      if status != Stall && !NeedsRefresh(r.client, env.pid, env.forkEpoch) {
        BeatInPlace(r, status, payload, env);
      } else if status != Stall && env.refreshed {
        BeatRefreshed(r, status, payload, env);
      }
    case ReconnectEvent(ok, pid, forkEpoch) =>
    case ThresholdEvent(n) =>
  }

  /** In every run, from connect, for any mix of drops, failures, short writes, retries,
      refreshes and reconnects: nonces, timestamps, regression and reconnect counts. */
  lemma {:induction false} RunKeepsInv(r: Run, events: seq<Event>)
    requires Inv(r)
    ensures Inv(Replay(r, events))
    decreases |events|
  {
    if events != [] {
      ApplyKeepsInv(r, events[0]);
      RunKeepsInv(Apply(r, events[0]), events[1..]);
    }
  }

  lemma EveryRun(pid: u32, forkEpoch: u64, now: int, dropMax: nat, events: seq<Event>)
    ensures Inv(Replay(Begin(pid, forkEpoch, now, dropMax), events))
  {
    RunKeepsInv(Begin(pid, forkEpoch, now, dropMax), events);
  }

  /** No accepted regular frame carries the terminal sentinel, and two carry the same nonce
      exactly when a multiple of 2^64 - 1 frames apart. */
  lemma NoncesDistinct(r: Run, i: nat, j: nat)
    requires Inv(r) && i <= j < |r.accepted|
    ensures r.accepted[i].nonce != NONCE_TERMINAL && r.accepted[j].nonce != NONCE_TERMINAL
    ensures r.accepted[i].nonce == r.accepted[j].nonce <==> (j - i) % NONCE_MODULUS == 0
  {
    SameModIff(NONCE_MODULUS, i + 1, j + 1);
  }

  // ---- what beats offer and report, by the history alone -------------------

  /** The time from `base` to `now`, but at least `last`: zero for a clock behind `base`, and
      no more than 2^64 - 1. */
  function Stamp(base: int, now: int, last: u64): u64 {
    if now <= base + last then last else if now - base > U64_MAX then U64_MAX else now - base
  }

  lemma EmittedFrame(c: Client, accepted: seq<Frame>, status: Status, payload: u32, env: Env, k: nat)
    requires InSession(c, accepted) && k < |Emit(c, status, payload, env).attempts|
    ensures Emit(c, status, payload, env).attempts[k].frame ==
      NewFrame(status, env.pid, Stamp(c.start, env.now, LastAccepted(accepted)), (|accepted| + 1) % NONCE_MODULUS, payload)
  {
    ModSucc(|accepted|);
  }

  /** In every run: a beat recovers exactly if another process or epoch last opened the
      transport; every frame it offers is of the calling process, with the next nonce of the
      session and the time since the session began, but never before the last accepted. */
  lemma OfferedFrame(r: Run, status: Status, payload: u32, env: Env, k: nat)
    requires Inv(r) && k < |Beat(r.client, status, payload, env).attempts|
    ensures var b := Beat(r.client, status, payload, env);
      var fork := (env.pid, env.forkEpoch) != r.home;
      var session := if fork then [] else r.accepted;
      && b.refresh == fork
      && b.attempts[k].frame == NewFrame(status, env.pid, Stamp(if fork then env.restart else r.base, env.now, LastAccepted(session)),
                                         (|session| + 1) % NONCE_MODULUS, payload)
  {
    if (env.pid, env.forkEpoch) == r.home {
      EmittedFrame(r.client, r.accepted, status, payload, env, k);
    } else {
      EmittedFrame(Refreshed(r.client, env), [], status, payload, env, k);
    }
  }

  /** The clock base and the frames of the session a beat goes on with. */
  predicate SessionOf(r: Run, env: Env, base: int, session: seq<Frame>) {
    if (env.pid, env.forkEpoch) == r.home then base == r.base && session == r.accepted
    else base == env.restart && session == []
  }

  /** A successful beat adds the frame it offered to its session. */
  lemma AcceptedFrame(r: Run, status: Status, payload: u32, env: Env, base: int, session: seq<Frame>)
    requires Inv(r) && SessionOf(r, env, base, session) && Beat(r.client, status, payload, env).outcome == Sent
    ensures var z := Apply(r, BeatEvent(status, payload, env));
      && z.base == base
      && z.accepted == session + [NewFrame(status, env.pid, Stamp(base, env.now, LastAccepted(session)),
                                           (|session| + 1) % NONCE_MODULUS, payload)]
  {
    RetryRepeats(r.client, status, payload, env);
    OfferedFrame(r, status, payload, env, 0);
  }

  /** The drop a beat meets makes it rebuild the transport: a threshold is set and reached by
      the drops in a row. */
  predicate Rebuilds(r: Run, env: Env) {
    var streak := if (env.pid, env.forkEpoch) != r.home then 0 else r.streak;
    env.first == DropError && r.threshold > 0 && Min(streak + 1, r.client.dropMax) >= r.threshold
  }

  /** What a reply means: success is one datagram accepted in full. */
  function Meaning(reply: Reply, expectedLen: nat): SendOutcome {
    if reply == Wrote(expectedLen) then Sent else if reply == DropError then Dropped else Failed
  }

  /** In every run: what a beat reports, by the replies and the drops in a row. */
  lemma OutcomeIff(r: Run, status: Status, payload: u32, env: Env)
    requires Inv(r)
    ensures var b := Beat(r.client, status, payload, env);
      var silent := status == Stall || ((env.pid, env.forkEpoch) != r.home && !env.refreshed);
      && (b.attempts == [] <==> silent)
      && b.tried == (!silent && Rebuilds(r, env))
      && b.outcome == if silent then Failed
                      else Meaning(if Rebuilds(r, env) && env.reconnected then env.retry else env.first, env.expectedLen)
  {}

  // ---- what a single beat may send ---------------------------------------

  /** A beat sends at most two datagrams, identical, the second only after a drop and a
      rebuilt transport. */
  lemma RetryRepeats(c: Client, status: Status, payload: u32, env: Env)
    ensures var b := Beat(c, status, payload, env);
      && |b.attempts| <= 2
      && (|b.attempts| == 2 <==> b.tried && env.reconnected)
      && (|b.attempts| == 2 ==> b.attempts[0].outcome == Dropped && b.attempts[1].frame == b.attempts[0].frame)
      && (b.outcome == Sent <==> b.attempts != [] && b.attempts[|b.attempts| - 1].outcome == Sent)
  {}

  /** Every frame a beat offers carries the caller's status and payload and the calling
      process's id, and a timestamp that is the later of the clock and the last accepted
      timestamp; the session keeps what it carries exactly when it was accepted. */
  lemma BeatCarries(c: Client, status: Status, payload: u32, env: Env, k: nat)
    requires k < |Beat(c, status, payload, env).attempts|
    ensures var b := Beat(c, status, payload, env);
      var f, clock := b.attempts[k].frame, Elapsed(if b.refresh then env.restart else c.start, env.now);
      var nonce, last := if b.refresh then 0 else c.nonce, if b.refresh then 0 else c.lastTimestamp;
      && f == NewFrame(status, env.pid, f.timestamp, f.nonce, payload)
      && f.timestamp >= clock && f.timestamp >= last && (f.timestamp == clock || f.timestamp == last)
      && f.nonce != nonce && f.nonce != NONCE_TERMINAL
      && (b.client.nonce, b.client.lastTimestamp) == if b.outcome == Sent then (f.nonce, f.timestamp) else (nonce, last)
  {}

  /** A beat sends nothing for `Stall` or when the refresh fails, and then the same
      process still needs the refresh at its next beat; otherwise it sends. */
  lemma RefreshBeforeSend(c: Client, status: Status, payload: u32, env: Env)
    ensures var b := Beat(c, status, payload, env);
      && (b.attempts == [] <==> status == Stall || (NeedsRefresh(c, env.pid, env.forkEpoch) && !env.refreshed))
      && (b.attempts == [] ==>
            NeedsRefresh(b.client, env.pid, env.forkEpoch) == NeedsRefresh(c, env.pid, env.forkEpoch)
            && b.client == c.(consecutiveDropped := b.client.consecutiveDropped))
      && (b.attempts != [] ==>
            !NeedsRefresh(b.client, env.pid, env.forkEpoch) && b.refresh == NeedsRefresh(c, env.pid, env.forkEpoch))
  {}
}
