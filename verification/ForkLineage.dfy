/** Trees of forked processes that inherit client handles.  Fork copies a process's
    memory; the child callback advances its epoch; process ids are arbitrary, so they
    may repeat in any pattern. */
module ForkLineage {
  import opened Words
  import opened VlpFrame
  import opened ForkEpoch
  import M = BeatMachine

  /** Where and when a transport was last connected: the process instance, and how many
      epoch advances lay on that instance's lineage. */
  datatype Conn = Conn(instance: nat, forks: nat)

  datatype Handle = Handle(client: M.Client, conn: Conn)

  datatype Process = Process(pid: u32, lineage: Lineage, forks: nat, handles: seq<Handle>)

  /** A datagram sent by `instance`, with `forks` epoch advances on its lineage, through a
      transport. */
  datatype Record = Record(instance: nat, forks: nat, conn: Conn, frame: Frame)

  datatype System = System(modulus: Modulus, live: map<nat, Process>, next: nat, sent: seq<Record>)

  datatype Step =
    | Spawn(pid: u32)
    | Open(i: nat, reply: int, ok: bool, now: int)
    | Fork(i: nat, childPid: u32)
    | Exit(i: nat)
    | DoBeat(i: nat, h: nat, status: Status, payload: u32, env: M.Env)
    | DoReconnect(i: nat, h: nat, ok: bool)
    | DoThreshold(i: nat, h: nat, n: nat)

  function Boot(m: Modulus): System { System(m, map[], 0, []) }

  predicate Enabled(s: System, t: Step) {
    match t
    case Spawn(_) => true
    case Open(i, _, _, _) => i in s.live
    case Fork(i, _) => i in s.live
    case Exit(i) => i in s.live
    case DoBeat(i, h, _, _, _) => i in s.live && h < |s.live[i].handles|
    case DoReconnect(i, h, _) => i in s.live && h < |s.live[i].handles|
    case DoThreshold(i, h, _) => i in s.live && h < |s.live[i].handles|
  }

  function Here(i: nat, p: Process): Conn { Conn(i, p.forks) }

  /** A beat sees its own process's id and epoch. */
  function Own(p: Process, env: M.Env): M.Env { env.(pid := p.pid, forkEpoch := p.lineage.epoch) }

  /** The transport of the first attempt: refreshed here, or the one the handle holds. */
  function FirstConn(i: nat, p: Process, c: Handle, b: M.BeatResult): Conn {
    if b.refresh then Here(i, p) else c.conn
  }

  function Sends(i: nat, p: Process, c: Handle, b: M.BeatResult): seq<Record> {
    if |b.attempts| == 0 then []
    else if |b.attempts| == 1 then [Record(i, p.forks, FirstConn(i, p, c, b), b.attempts[0].frame)]
    else [Record(i, p.forks, FirstConn(i, p, c, b), b.attempts[0].frame), Record(i, p.forks, Here(i, p), b.attempts[1].frame)]
  }

  function HandleAfter(i: nat, p: Process, c: Handle, b: M.BeatResult): Handle {
    Handle(b.client, if |b.attempts| > 1 then Here(i, p) else FirstConn(i, p, c, b))
  }

  function AfterOpen(i: nat, p: Process, reply: int, ok: bool, now: int): Process {
    var l := AfterRegister(p.lineage, reply);
    if Registered(l) && ok then
      p.(lineage := l, handles := p.handles + [Handle(M.Connect(p.pid, l.epoch, now, U32_MAX), Here(i, p))])
    else
      p.(lineage := l)
  }

  function Child(p: Process, childPid: u32): Process {
    p.(pid := childPid, lineage := InChild(p.lineage), forks := if Registered(p.lineage) then p.forks + 1 else p.forks)
  }

  function After(s: System, t: Step): System
    requires Enabled(s, t)
  {
    match t
    case Spawn(pid) => s.(live := s.live[s.next := Process(pid, Unregistered(s.modulus), 0, [])], next := s.next + 1)
    case Open(i, reply, ok, now) => s.(live := s.live[i := AfterOpen(i, s.live[i], reply, ok, now)])
    case Fork(i, childPid) => s.(live := s.live[s.next := Child(s.live[i], childPid)], next := s.next + 1)
    case Exit(i) => s.(live := s.live - {i})
    case DoBeat(i, h, status, payload, env) =>
      var p := s.live[i];
      var c := p.handles[h];
      var b := M.Beat(c.client, status, payload, Own(p, env));
      s.(live := s.live[i := p.(handles := p.handles[h := HandleAfter(i, p, c, b)])], sent := s.sent + Sends(i, p, c, b))
    case DoReconnect(i, h, ok) =>
      var p := s.live[i];
      var c := p.handles[h];
      var c' := Handle(M.Reconnect(c.client, ok, p.pid, p.lineage.epoch), if ok then Here(i, p) else c.conn);
      s.(live := s.live[i := p.(handles := p.handles[h := c'])])
    case DoThreshold(i, h, n) =>
      var p := s.live[i];
      var c := p.handles[h];
      s.(live := s.live[i := p.(handles := p.handles[h := c.(client := M.SetReconnectAfter(c.client, n))])])
  }

  predicate IsRun(s: System, steps: seq<Step>)
    decreases |steps|
  {
    steps == [] || (Enabled(s, steps[0]) && IsRun(After(s, steps[0]), steps[1..]))
  }

  function Final(s: System, steps: seq<Step>): System
    requires IsRun(s, steps)
    decreases |steps|
  {
    if steps == [] then s else Final(After(s, steps[0]), steps[1..])
  }

  // ---- invariant ----------------------------------------------------------

  /** A handle's epoch snapshot dates its transport: it was connected in this process
      exactly if no fork lies between. */
  predicate HandleInv(m: Modulus, i: nat, p: Process, c: Handle) {
    && c.client.connectForkEpoch == c.conn.forks % m
    && c.conn.forks <= p.forks
    && c.conn.instance <= i
    && (c.conn.instance == i <==> c.conn.forks == p.forks)
  }

  predicate ProcessInv(m: Modulus, i: nat, p: Process) {
    && p.lineage.modulus == m
    && p.lineage.epoch == p.forks % m
    && (p.handles != [] ==> Registered(p.lineage))
    && forall h :: 0 <= h < |p.handles| ==> HandleInv(m, i, p, p.handles[h])
  }

  predicate OwnTransport(r: Record) { r.conn.instance == r.instance }

  /** A frame goes through its own instance's transport, or the epoch has come full circle
      since the transport was connected. */
  predicate RecordInv(m: Modulus, r: Record) {
    OwnTransport(r) || (r.conn.forks < r.forks && (r.forks - r.conn.forks) % m == 0)
  }

  predicate Inv(s: System) {
    && (forall i :: i in s.live ==> i < s.next && ProcessInv(s.modulus, i, s.live[i]))
    && (forall k :: 0 <= k < |s.sent| ==> RecordInv(s.modulus, s.sent[k]))
  }

  /** Exactly when a beat goes ahead without a refresh: the process id matches and the
      number of epoch advances since the transport was connected is a multiple of the
      counter's width. */
  lemma SkipsRefreshIff(m: Modulus, i: nat, p: Process, c: Handle)
    requires ProcessInv(m, i, p) && HandleInv(m, i, p, c)
    ensures !M.NeedsRefresh(c.client, p.pid, p.lineage.epoch) <==>
      p.pid == c.client.connectPid && (p.forks - c.conn.forks) % m == 0
  {
    SameEpochIff(m, c.conn.forks, p.forks);
  }

  /** With fewer forks behind it than the counter has values, a process always refreshes an
      inherited transport before using it. */
  lemma InheritedIsRefreshed(m: Modulus, i: nat, p: Process, c: Handle)
    requires ProcessInv(m, i, p) && HandleInv(m, i, p, c) && p.forks < m
    requires c.conn.instance != i
    ensures M.NeedsRefresh(c.client, p.pid, p.lineage.epoch)
  {
    SkipsRefreshIff(m, i, p, c);
    SameEpochIff(m, c.conn.forks, p.forks);
  }

  lemma BeatSends(m: Modulus, i: nat, p: Process, c: Handle, status: Status, payload: u32, env: M.Env)
    requires ProcessInv(m, i, p) && HandleInv(m, i, p, c)
    ensures var b := M.Beat(c.client, status, payload, Own(p, env));
      && HandleInv(m, i, p, HandleAfter(i, p, c, b))
      && forall k :: 0 <= k < |Sends(i, p, c, b)| ==> RecordInv(m, Sends(i, p, c, b)[k])
  {
    M.RefreshBeforeSend(c.client, status, payload, Own(p, env));
    M.RetryRepeats(c.client, status, payload, Own(p, env));
    SkipsRefreshIff(m, i, p, c);
  }

  /** Exactly when a beat sends through a transport of another instance: the process has the
      id the handle was connected under, and a positive multiple of the counter's width of
      forks lies between. */
  lemma SendsForeignIff(m: Modulus, i: nat, p: Process, c: Handle, status: Status, payload: u32, env: M.Env)
    requires ProcessInv(m, i, p) && HandleInv(m, i, p, c)
    ensures var sends := Sends(i, p, c, M.Beat(c.client, status, payload, Own(p, env)));
      (exists k :: 0 <= k < |sends| && !OwnTransport(sends[k])) <==>
        && status != Stall && p.pid == c.client.connectPid
        && p.forks > c.conn.forks && (p.forks - c.conn.forks) % m == 0
  {
    SkipsRefreshIff(m, i, p, c);
    M.RefreshBeforeSend(c.client, status, payload, Own(p, env));
    M.RetryRepeats(c.client, status, payload, Own(p, env));
    var sends := Sends(i, p, c, M.Beat(c.client, status, payload, Own(p, env)));
    if status != Stall && c.conn.instance != i && !M.NeedsRefresh(c.client, p.pid, p.lineage.epoch) {
      assert !OwnTransport(sends[0]);
    }
  }

  lemma ChildInv(m: Modulus, i: nat, p: Process, childPid: u32, j: nat)
    requires ProcessInv(m, i, p) && i < j
    ensures ProcessInv(m, j, Child(p, childPid))
  {
    AdvanceCounts(m, p.forks);
  }

  lemma UpdateHandle(m: Modulus, i: nat, p: Process, h: nat, c: Handle)
    requires ProcessInv(m, i, p) && h < |p.handles| && HandleInv(m, i, p, c)
    ensures ProcessInv(m, i, p.(handles := p.handles[h := c]))
  {}

  lemma OpenInv(m: Modulus, i: nat, p: Process, reply: int, ok: bool, now: int)
    requires ProcessInv(m, i, p)
    ensures ProcessInv(m, i, AfterOpen(i, p, reply, ok, now))
  {}

  lemma AfterKeepsInv(s: System, t: Step)
    requires Inv(s) && Enabled(s, t)
    ensures Inv(After(s, t)) && After(s, t).modulus == s.modulus
  {
    var m := s.modulus;
    match t
    case Spawn(pid) =>
    case Open(i, reply, ok, now) =>
      OpenInv(m, i, s.live[i], reply, ok, now);
    case Fork(i, childPid) =>
      ChildInv(m, i, s.live[i], childPid, s.next);
    case Exit(i) =>
    case DoBeat(i, h, status, payload, env) =>
      var p := s.live[i];
      var c := p.handles[h];
      BeatSends(m, i, p, c, status, payload, env);
      UpdateHandle(m, i, p, h, HandleAfter(i, p, c, M.Beat(c.client, status, payload, Own(p, env))));
    case DoReconnect(i, h, ok) =>
      var p := s.live[i];
      var c := p.handles[h];
      assert HandleInv(m, i, p, c);
      UpdateHandle(m, i, p, h, Handle(M.Reconnect(c.client, ok, p.pid, p.lineage.epoch), if ok then Here(i, p) else c.conn));
    case DoThreshold(i, h, n) =>
      var p := s.live[i];
      var c := p.handles[h];
      assert HandleInv(m, i, p, c);
      UpdateHandle(m, i, p, h, c.(client := M.SetReconnectAfter(c.client, n)));
  }

  lemma {:induction false} RunKeepsInv(s: System, steps: seq<Step>)
    requires Inv(s) && IsRun(s, steps)
    ensures Inv(Final(s, steps)) && Final(s, steps).modulus == s.modulus
    decreases |steps|
  {
    if steps != [] {
      AfterKeepsInv(s, steps[0]);
      RunKeepsInv(After(s, steps[0]), steps[1..]);
    }
  }

  /** In every tree of processes, of any size and depth, whatever their ids and however they
      fork, exit, connect, fail and reconnect: a frame goes through a transport connected in
      the instance that sends it, unless a positive multiple of the counter's width of
      nested forks lies between.  So an instance with fewer nested forks behind it than the
      counter has values uses only its own. */
  lemma EveryFrameOnOwnTransport(m: Modulus, steps: seq<Step>)
    requires IsRun(Boot(m), steps)
    ensures var sent := Final(Boot(m), steps).sent;
      && (forall k :: 0 <= k < |sent| && !OwnTransport(sent[k]) ==>
            sent[k].forks - sent[k].conn.forks >= m && (sent[k].forks - sent[k].conn.forks) % m == 0)
      && (forall k :: 0 <= k < |sent| && sent[k].forks < m ==> OwnTransport(sent[k]))
  {
    RunKeepsInv(Boot(m), steps);
    var sent := Final(Boot(m), steps).sent;
    forall k | 0 <= k < |sent| && !OwnTransport(sent[k])
      ensures sent[k].forks - sent[k].conn.forks >= m && (sent[k].forks - sent[k].conn.forks) % m == 0
    {
      assert RecordInv(m, sent[k]);
      SameEpochIff(m, sent[k].conn.forks, sent[k].forks);
    }
  }

  // ---- the epoch does come full circle ------------------------------------

  /** No two live processes have the same id. */
  predicate PidsDistinct(s: System) {
    forall i, j :: i in s.live && j in s.live && i != j ==> s.live[i].pid != s.live[j].pid
  }

  /** A run in which live processes have different ids throughout. */
  predicate IsPlausible(s: System, steps: seq<Step>)
    requires IsRun(s, steps)
    decreases |steps|
  {
    PidsDistinct(s) && (steps == [] || IsPlausible(After(s, steps[0]), steps[1..]))
  }

  lemma {:induction false} Extend(s: System, steps: seq<Step>, t: Step)
    requires IsRun(s, steps) && IsPlausible(s, steps) && Enabled(Final(s, steps), t)
    requires PidsDistinct(After(Final(s, steps), t))
    ensures IsRun(s, steps + [t]) && IsPlausible(s, steps + [t]) && Final(s, steps + [t]) == After(Final(s, steps), t)
    decreases |steps|
  {
    if steps == [] {
      assert [t][1..] == [];
    } else {
      assert (steps + [t])[1..] == steps[1..] + [t];
      Extend(After(s, steps[0]), steps[1..], t);
    }
  }

  /** The process ids of a chain of forks whose parents exit: two ids suffice. */
  function ChainPid(n: nat): u32 { 2 + n % 2 }

  /** The tip of a chain of `n` nested forks that inherit one handle. */
  function Tip(m: Modulus, n: nat): Process {
    Process(ChainPid(n), Lineage(m, n % m, true, 0), n, [Handle(M.Connect(2, 0, 0, U32_MAX), Conn(0, 0))])
  }

  function Chain(m: Modulus, n: nat): System { System(m, map[n := Tip(m, n)], n + 1, []) }

  lemma ChainStarts(m: Modulus) returns (steps: seq<Step>)
    ensures IsRun(Boot(m), steps) && IsPlausible(Boot(m), steps) && Final(Boot(m), steps) == Chain(m, 0)
  {
    Extend(Boot(m), [], Spawn(2));
    var s := Final(Boot(m), [] + [Spawn(2)]);
    var p := Process(2, Unregistered(m), 0, []);
    assert s == System(m, map[0 := p], 1, []);
    ModUnique(m, 0, 0, 0);
    assert AfterOpen(0, p, 0, true, 0).handles == Tip(m, 0).handles;
    assert After(s, Open(0, 0, true, 0)) == Chain(m, 0);
    Extend(Boot(m), [] + [Spawn(2)], Open(0, 0, true, 0));
    steps := [] + [Spawn(2)] + [Open(0, 0, true, 0)];
  }

  /** A process of the chain forks and exits. */
  lemma ChainGrows(m: Modulus, n: nat, steps: seq<Step>)
    requires IsRun(Boot(m), steps) && IsPlausible(Boot(m), steps) && Final(Boot(m), steps) == Chain(m, n)
    ensures var more := steps + [Fork(n, ChainPid(n + 1))] + [Exit(n)];
      IsRun(Boot(m), more) && IsPlausible(Boot(m), more) && Final(Boot(m), more) == Chain(m, n + 1)
  {
    TipForks(m, n);
    var both := System(m, map[n := Tip(m, n), n + 1 := Tip(m, n + 1)], n + 2, []);
    assert After(Chain(m, n), Fork(n, ChainPid(n + 1))) == both;
    assert After(both, Exit(n)) == Chain(m, n + 1);
    Extend(Boot(m), steps, Fork(n, ChainPid(n + 1)));
    Extend(Boot(m), steps + [Fork(n, ChainPid(n + 1))], Exit(n));
  }

  lemma {:induction false} NestedForks(m: Modulus, n: nat) returns (steps: seq<Step>)
    ensures IsRun(Boot(m), steps) && IsPlausible(Boot(m), steps) && Final(Boot(m), steps) == Chain(m, n)
    decreases n
  {
    if n == 0 {
      steps := ChainStarts(m);
    } else {
      steps := NestedForks(m, n - 1);
      ChainGrows(m, n - 1, steps);
      steps := steps + [Fork(n - 1, ChainPid(n))] + [Exit(n - 1)];
    }
  }

  lemma TipForks(m: Modulus, n: nat)
    ensures Child(Tip(m, n), ChainPid(n + 1)) == Tip(m, n + 1)
  {
    AdvanceCounts(m, n);
  }

  /** After as many nested forks as the counter has values the epoch has come full circle,
      and a descendant that was given the original process id sends through the transport it
      inherited, although live processes always have different ids. */
  lemma WrappedEpochIsMissed(m: Modulus) returns (steps: seq<Step>)
    ensures IsRun(Boot(m), steps) && IsPlausible(Boot(m), steps)
    ensures var sent := Final(Boot(m), steps).sent; |sent| == 1 && sent[0].forks == m && !OwnTransport(sent[0])
  {
    steps := NestedForks(m, m);
    var env := M.Env(2, 0, true, 0, 1, 32, M.Wrote(32), true, M.Wrote(32));
    var t := DoBeat(m, 0, Ok, 0, env);
    var s, p, c := Final(Boot(m), steps), Tip(m, m), Handle(M.Connect(2, 0, 0, U32_MAX), Conn(0, 0));
    assert s.live[m].handles[0] == c;
    Extend(Boot(m), steps, t);
    assert !M.NeedsRefresh(c.client, p.pid, p.lineage.epoch);
    var b := M.Beat(c.client, Ok, 0, Own(p, env));
    assert Sends(m, p, c, b) == [Record(m, m, Conn(0, 0), b.attempts[0].frame)];
    steps := steps + [t];
  }
}
