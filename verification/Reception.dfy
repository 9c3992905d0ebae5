/** The way from received wires to the guard of one process id, for any reading of wires. */
module Reception {
  import opened Wrappers
  import opened Words
  import opened ReplayGuard
  import opened ReplayOrder

  /** A wire that reaches the listener, or the sender's eviction. */
  datatype Reception = Received(wire: Bytes, now: nat, gap: nat, room: bool) | Evicted

  /** What a reception is to the guard of `pid`: nothing, if the wire cannot be read or is
      another process's. */
  function HeardOne(parse: Bytes -> Option<Datagram>, pid: u32, r: Reception): seq<Event> {
    match r
    case Evicted => [Forget]
    case Received(wire, now, gap, room) =>
      var d := parse(wire);
      if d.Some? && d.value.pid == pid then [Arrive(d.value, now, gap, room)] else []
  }

  function Heard(parse: Bytes -> Option<Datagram>, pid: u32, rs: seq<Reception>): seq<Event>
    decreases |rs|
  {
    if rs == [] then [] else Heard(parse, pid, rs[..|rs| - 1]) + HeardOne(parse, pid, rs[|rs| - 1])
  }

  /** If each reception is one event, together they are those events. */
  lemma {:induction false} HeardEach(parse: Bytes -> Option<Datagram>, pid: u32, rs: seq<Reception>, events: seq<Event>)
    requires |rs| == |events| && forall i :: 0 <= i < |rs| ==> HeardOne(parse, pid, rs[i]) == [events[i]]
    ensures Heard(parse, pid, rs) == events
    decreases |rs|
  {
    if rs != [] {
      HeardEach(parse, pid, rs[..|rs| - 1], events[..|rs| - 1]);
      assert events == events[..|rs| - 1] + [events[|rs| - 1]];
    }
  }

  /** Wire `i` reads as datagram `i`, or as nothing. */
  predicate ReadsAt(parse: Bytes -> Option<Datagram>, wires: seq<Bytes>, all: seq<Datagram>, readable: seq<bool>, i: nat)
  {
    i < |wires| && i < |all| && i < |readable| && parse(wires[i]) == if readable[i] then Some(all[i]) else None
  }

  predicate Reads(parse: Bytes -> Option<Datagram>, wires: seq<Bytes>, all: seq<Datagram>, readable: seq<bool>) {
    && |wires| <= |all| == |readable|
    && forall i {:trigger wires[i]} :: 0 <= i < |wires| ==> ReadsAt(parse, wires, all, readable, i)
  }

  /** Wires of two sources, one after the other. */
  lemma ReadsBoth(parse: Bytes -> Option<Datagram>, w: seq<Bytes>, a: seq<Datagram>, r: seq<bool>,
                  w': seq<Bytes>, a': seq<Datagram>, r': seq<bool>)
    requires Reads(parse, w, a, r) && Reads(parse, w', a', r')
    ensures Reads(parse, w + w', a[..|w|] + a', r[..|w|] + r')
  {
    forall i | 0 <= i < |w + w'|
      ensures ReadsAt(parse, w + w', a[..|w|] + a', r[..|w|] + r', i)
    {
      if i < |w| {
        assert ReadsAt(parse, w, a, r, i) && (w + w')[i] == w[i];
      } else {
        assert ReadsAt(parse, w', a', r', i - |w|) && (w + w')[i] == w'[i - |w|];
      }
    }
  }

  // ---- replays ------------------------------------------------------------

  /** Every wire that gets through was transmitted; the network may also deliver anything
      that cannot be read. */
  predicate OnlyFrom(parse: Bytes -> Option<Datagram>, rs: seq<Reception>, wires: seq<Bytes>) {
    forall i :: 0 <= i < |rs| && rs[i].Received? ==> rs[i].wire in wires || parse(rs[i].wire).None?
  }

  /** No datagram is accepted twice in one epoch, nor more often than once plus the evictions
      and silences. */
  ghost predicate IsSafe(heard: seq<Event>) {
    var history := Replay(UNKNOWN, heard).history;
    EpochsRise(history) && forall d :: Times(history, d) <= 1 + Forgets(heard) + Silences(UNKNOWN, heard)
  }

  lemma {:induction false} HeardDelivers(parse: Bytes -> Option<Datagram>, pid: u32, rs: seq<Reception>,
                                         wires: seq<Bytes>, all: seq<Datagram>, readable: seq<bool>)
    requires Reads(parse, wires, all, readable) && OnlyFrom(parse, rs, wires)
    ensures Delivers(Heard(parse, pid, rs), (set d | d in all))
    decreases |rs|
  {
    if rs != [] {
      var last := rs[|rs| - 1];
      HeardDelivers(parse, pid, rs[..|rs| - 1], wires, all, readable);
      if last.Received? && last.wire in wires {
        var i :| 0 <= i < |wires| && wires[i] == last.wire;
        assert ReadsAt(parse, wires, all, readable, i);
      }
    }
  }

  lemma HeardIsSafe(parse: Bytes -> Option<Datagram>, pid: u32, rs: seq<Reception>,
                    wires: seq<Bytes>, all: seq<Datagram>, readable: seq<bool>)
    requires Reads(parse, wires, all, readable) && OnlyFrom(parse, rs, wires) && Genuine(set d | d in all)
    ensures IsSafe(Heard(parse, pid, rs))
  {
    var heard, sent := Heard(parse, pid, rs), (set d | d in all);
    HeardDelivers(parse, pid, rs, wires, all, readable);
    NoReplay(sent, heard);
    forall d
      ensures Times(Replay(UNKNOWN, heard).history, d) <= 1 + Forgets(heard) + Silences(UNKNOWN, heard)
    {
      AcceptedAtMost(sent, heard, d);
    }
  }

  /** Within a prefix, counters and nonces rise. */
  predicate BothRise(all: seq<Datagram>, i: nat, j: nat)
    requires i < j < |all|
  {
    all[i].iv == all[j].iv ==> all[i].counter < all[j].counter && all[i].nonce < all[j].nonce
  }

  lemma RisingIsGenuine(all: seq<Datagram>)
    requires forall i :: 0 <= i < |all| ==> !IsTerminal(all[i])
    requires forall i, j {:trigger BothRise(all, i, j)} :: 0 <= i < j < |all| ==> BothRise(all, i, j)
    ensures Genuine(set d | d in all)
  {
    forall a, b | a in all && b in all && a.iv == b.iv
      ensures (a.counter == b.counter ==> a == b) && (a.counter < b.counter ==> a.nonce < b.nonce)
    {
      var i :| 0 <= i < |all| && all[i] == a;
      var j :| 0 <= j < |all| && all[j] == b;
      if i < j {
        assert BothRise(all, i, j);
      } else if j < i {
        assert BothRise(all, j, i);
      }
    }
  }

  lemma FallingIsNot(all: seq<Datagram>, i: nat, j: nat)
    requires i < j < |all| && !IsTerminal(all[i]) && !IsTerminal(all[j])
    requires all[i].iv == all[j].iv && all[i].counter < all[j].counter && all[i].nonce >= all[j].nonce
    ensures !Genuine(set d | d in all)
  {
    var sent := set d | d in all;
    assert all[i] in sent && all[j] in sent;
  }

  // ---- arrival in order ---------------------------------------------------

  /** The positions, among those received, of the readable datagrams of one process id. */
  function Passing(all: seq<Datagram>, readable: seq<bool>, pid: u32, kept: seq<nat>): (p: seq<nat>)
    requires |all| == |readable| && Increasing(kept, |all|)
    ensures Increasing(p, if kept == [] then 0 else kept[|kept| - 1] + 1) && Increasing(p, |all|)
    decreases |kept|
  {
    if kept == [] then []
    else
      var before, n := Passing(all, readable, pid, kept[..|kept| - 1]), kept[|kept| - 1];
      if readable[n] && all[n].pid == pid then before + [n] else before
  }

  lemma {:induction false} PassingIff(all: seq<Datagram>, readable: seq<bool>, pid: u32, kept: seq<nat>)
    requires |all| == |readable| && Increasing(kept, |all|)
    ensures forall n :: n in Passing(all, readable, pid, kept) <==> n in kept && readable[n] && all[n].pid == pid
    decreases |kept|
  {
    if kept != [] {
      PassingIff(all, readable, pid, kept[..|kept| - 1]);
      assert kept == kept[..|kept| - 1] + [kept[|kept| - 1]];
    }
  }

  /** The wires at the positions `kept`, in order, each received at its own time. */
  predicate InSequence(rs: seq<Reception>, wires: seq<Bytes>, kept: seq<nat>) {
    && Increasing(kept, |wires|) && |rs| == |kept|
    && forall i :: 0 <= i < |rs| ==> rs[i].Received? && rs[i].wire == wires[kept[i]] && rs[i].room
  }

  /** The events are arrivals of the datagrams, with room. */
  predicate Hears(heard: seq<Event>, ds: seq<Datagram>) {
    |heard| == |ds| && forall i :: 0 <= i < |ds| ==> heard[i].Arrive? && heard[i].room && heard[i].d == ds[i]
  }

  lemma HearsOneMore(heard: seq<Event>, all: seq<Datagram>, p: seq<nat>, e: Event, n: nat)
    requires Increasing(p, |all|) && Increasing(p + [n], |all|) && Hears(heard, Pick(all, p))
    requires n < |all| && e.Arrive? && e.room && e.d == all[n]
    ensures Hears(heard + [e], Pick(all, p + [n]))
  {
    assert Pick(all, p + [n]) == Pick(all, p) + [all[n]];
  }

  /** One more wire of the process is heard, one more of another is not. */
  lemma HeardLast(parse: Bytes -> Option<Datagram>, pid: u32, rs: seq<Reception>, d: Option<Datagram>)
    requires rs != [] && rs[|rs| - 1].Received? && parse(rs[|rs| - 1].wire) == d
    ensures var last := rs[|rs| - 1];
      Heard(parse, pid, rs) == Heard(parse, pid, rs[..|rs| - 1]) +
        if d.Some? && d.value.pid == pid then [Arrive(d.value, last.now, last.gap, last.room)] else []
  {}

  lemma SequenceInit(rs: seq<Reception>, wires: seq<Bytes>, kept: seq<nat>)
    requires InSequence(rs, wires, kept) && rs != []
    ensures InSequence(rs[..|rs| - 1], wires, kept[..|kept| - 1])
    ensures var last := rs[|rs| - 1]; last.Received? && last.room && last.wire == wires[kept[|kept| - 1]]
  {}

  lemma {:induction false} HeardInSequence(parse: Bytes -> Option<Datagram>, pid: u32, rs: seq<Reception>,
                                           wires: seq<Bytes>, kept: seq<nat>, all: seq<Datagram>, readable: seq<bool>)
    requires Reads(parse, wires, all, readable) && InSequence(rs, wires, kept) && Increasing(kept, |all|)
    ensures Hears(Heard(parse, pid, rs), Pick(all, Passing(all, readable, pid, kept)))
    decreases |rs|
  {
    if rs != [] {
      var n, last := kept[|kept| - 1], rs[|rs| - 1];
      var kept0, rs0 := kept[..|kept| - 1], rs[..|rs| - 1];
      SequenceInit(rs, wires, kept);
      HeardInSequence(parse, pid, rs0, wires, kept0, all, readable);
      assert ReadsAt(parse, wires, all, readable, n);
      HeardLast(parse, pid, rs, if readable[n] then Some(all[n]) else None);
      if readable[n] && all[n].pid == pid {
        HearsOneMore(Heard(parse, pid, rs0), all, Passing(all, readable, pid, kept0),
                     Arrive(all[n], last.now, last.gap, last.room), n);
      } else {
        assert Heard(parse, pid, rs) == Heard(parse, pid, rs0);
      }
    }
  }

  /** The guard accepts every readable wire, in one epoch, exactly if changes of prefix come
      with leading nonces. */
  lemma HeardOnTimeIff(parse: Bytes -> Option<Datagram>, pid: u32, rs: seq<Reception>,
                       wires: seq<Bytes>, kept: seq<nat>, all: seq<Datagram>, readable: seq<bool>)
    requires Reads(parse, wires, all, readable) && InSequence(rs, wires, kept) && Increasing(kept, |all|)
    requires Layout(all)
    ensures var ds := Pick(all, Passing(all, readable, pid, kept));
      AllInOne(Replay(UNKNOWN, Heard(parse, pid, rs)).history, ds) <==> RotationsLead(ds)
  {
    var ds, heard := Pick(all, Passing(all, readable, pid, kept)), Heard(parse, pid, rs);
    HeardInSequence(parse, pid, rs, wires, kept, all, readable);
    LossKeepsLayout(all, Passing(all, readable, pid, kept));
    assert Arriving(heard) == ds;
    InOrderAcceptedIff(heard);
  }
}
