/** The agent object: the beat machine run on mutable fields and one scratch buffer. */
module VartaClient {
  import opened Words
  import opened VlpFrame
  import M = BeatMachine

  /** The datagrams a sequence of attempts puts on the transport. */
  function Datagrams(attempts: seq<M.Attempt>): seq<Wire> {
    seq(|attempts|, i requires 0 <= i < |attempts| => Encode(attempts[i].frame))
  }

  class Varta {
    const buf: array<u8>
    var nonce: u64
    var start: int
    var lastTimestamp: u64
    var consecutiveDropped: nat
    var reconnectAfter: nat
    var clockRegressions: u64
    var connectPid: u32
    var connectForkEpoch: u64
    var forkRecoveries: u64

    ghost predicate Valid() { buf.Length == 32 }

    function State(): M.Client
      reads this
    {
      M.Client(nonce, start, lastTimestamp, consecutiveDropped, reconnectAfter, clockRegressions, connectPid,
               connectForkEpoch, forkRecoveries, U32_MAX)
    }

    constructor (pid: u32, forkEpoch: u64, now: int)
      ensures Valid() && fresh(buf) && State() == M.Connect(pid, forkEpoch, now, U32_MAX)
    {
      buf := new u8[32](_ => 0);
      nonce, start, lastTimestamp := 0, now, 0;
      consecutiveDropped, reconnectAfter, clockRegressions := 0, 0, 0;
      connectPid, connectForkEpoch, forkRecoveries := pid, forkEpoch, 0;
    }

    method CommitSentFrame(candidate: u64, timestamp: u64)
      modifies this
      ensures State() == old(State()).(nonce := candidate, lastTimestamp := timestamp)
    {
      nonce := candidate;
      lastTimestamp := timestamp;
    }

    /** Hand the buffer to the transport, commit on success, reconnect and retry if due. */
    method Settle(candidate: u64, timestamp: u64, env: M.Env, ghost f: Frame)
      returns (outcome: M.SendOutcome, sent: seq<Wire>)
      requires Valid() && buf[..] == Encode(f) && candidate == f.nonce && timestamp == f.timestamp
      modifies this
      ensures var b := M.Settle(old(State()), f, env);
        State() == b.client && outcome == b.outcome && sent == Datagrams(b.attempts)
    {
      sent := [buf[..]];
      outcome := M.SendFrame(env.first, env.expectedLen);
      match outcome
      case Sent =>
        CommitSentFrame(candidate, timestamp);
        consecutiveDropped := 0;
      case Dropped =>
        consecutiveDropped := SaturatingInc(consecutiveDropped, U32_MAX);
        if reconnectAfter > 0 && consecutiveDropped >= reconnectAfter {
          consecutiveDropped := 0;
          if env.reconnected {
            sent := sent + [buf[..]];
            outcome := M.SendFrame(env.retry, env.expectedLen);
            if outcome == M.Sent {
              CommitSentFrame(candidate, timestamp);
            }
          }
        }
      case Failed =>
        consecutiveDropped := 0;
    }

    /** Adopt the current process as the session's own and start over. */
    method Refresh(env: M.Env)
      modifies this
      ensures State() == M.Refreshed(old(State()), env)
    {
      connectPid := env.pid;
      connectForkEpoch := env.forkEpoch;
      forkRecoveries := SaturatingInc(forkRecoveries, U64_MAX);
      nonce := 0;
      start := env.restart;
      lastTimestamp := 0;
      consecutiveDropped := 0;
    }

    /** Build the candidate frame in the scratch buffer, noting a clock regression. */
    method Prepare(status: Status, payload: u32, env: M.Env) returns (candidate: u64, timestamp: u64)
      requires Valid()
      modifies this, buf
      ensures State() == M.Observed(old(State()), env)
      ensures var f := M.Candidate(old(State()), status, payload, env);
        buf[..] == Encode(f) && candidate == f.nonce && timestamp == f.timestamp
    {
      var (next, wrapped) := M.NextNonce(nonce);
      candidate := next;
      var elapsed := M.Elapsed(start, env.now);
      if elapsed < lastTimestamp {
        clockRegressions := SaturatingInc(clockRegressions, U64_MAX);
      }
      timestamp := Max(lastTimestamp, elapsed);
      EncodeInto(NewFrame(status, env.pid, timestamp, candidate, payload), buf);
    }

    /** Emit one frame.  `sent` lists the buffers handed to the transport, in order. */
    method Beat(status: Status, payload: u32, env: M.Env) returns (outcome: M.SendOutcome, sent: seq<Wire>)
      requires Valid()
      modifies this, buf
      ensures var b := M.Beat(old(State()), status, payload, env);
        State() == b.client && outcome == b.outcome && sent == Datagrams(b.attempts)
    {
      if status == Stall {
        consecutiveDropped := 0;
        return M.Failed, [];
      }
      if env.pid != connectPid || env.forkEpoch != connectForkEpoch {
        if !env.refreshed {
          return M.Failed, [];
        }
        Refresh(env);
      }
      ghost var c := State();
      ghost var f := M.Candidate(c, status, payload, env);
      var candidate, timestamp := Prepare(status, payload, env);
      outcome, sent := Settle(candidate, timestamp, env, f);
      M.BeatIsEmit(old(State()), c, status, payload, env);
    }

    method Reconnect(ok: bool, pid: u32, forkEpoch: u64)
      modifies this
      ensures State() == M.Reconnect(old(State()), ok, pid, forkEpoch)
    {
      if ok {
        connectPid := pid;
        connectForkEpoch := forkEpoch;
        consecutiveDropped := 0;
      }
    }

    method SetReconnectAfter(n: u32)
      modifies this
      ensures State() == M.SetReconnectAfter(old(State()), n)
    {
      reconnectAfter := n;
      consecutiveDropped := 0;
    }
  }
}
