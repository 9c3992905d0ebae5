/** From the Node agent's wires to the observer's replay guard. */
module ReplayEndToEnd {
  import opened Wrappers
  import opened Words
  import opened VlpFrame
  import opened SecureWire
  import opened ReplayGuard
  import opened ReplayOrder
  import opened Reception
  import M = BeatMachine
  import S = SecureSessions
  import T = SecureTransport
  import K = NodeStack
  import N = NodeSessions

  // ---- what the listener reads --------------------------------------------

  /** What the listener makes of a received datagram: it opens and decodes it, and in
      master mode insists that the named agent is the frame's. */
  function Parse(s: Suite, secret: T.Secret, wire: Bytes): Option<Datagram> {
    var f := K.Receive(s, secret, wire);
    if f.None? then None
    else
      match secret
      case Shared(_) =>
        if |wire| != SECURE_SHARED_BYTES then None
        else Some(Datagram(f.value.pid, wire[..8], ReadCounter(wire, 8), f.value.nonce, f.value.timestamp))
      case Master(_) =>
        if |wire| != SECURE_MASTER_BYTES || ReadCounter(wire, 0) != f.value.pid then None
        else Some(Datagram(f.value.pid, wire[4..12], ReadCounter(wire, 12), f.value.nonce, f.value.timestamp))
  }

  lemma NonceOnWire(wire: Bytes, at: nat)
    requires at + 12 <= |wire|
    ensures ReadCounter(wire, at + 8) == Le32(wire, at + 8)
    ensures BuildNonce(wire[at..at + 8], ReadCounter(wire, at + 8)) == wire[at..at + 12]
  {
    FourBytes(wire, at + 8);
    FromLeRoundTrip(wire[at + 8..at + 12]);
    assert wire[at..at + 12] == wire[at..at + 8] + wire[at + 8..at + 12];
  }

  /** What the listener reads under a shared key, byte by byte. */
  lemma ParseShared(s: Suite, key: Bytes, wire: Bytes)
    requires |wire| == 60
    ensures var text := s.open(key, wire[..12], None, wire[12..]);
      Parse(s, T.Shared(key), wire) ==
        if text.Some? && |text.value| == 32 && Decode(text.value).Success?
        then var f := Decode(text.value).value; Some(Datagram(f.pid, wire[..8], Le32(wire, 8), f.nonce, f.timestamp))
        else None
  {
    OpensShared(s, key, wire);
    NonceOnWire(wire, 0);
  }

  lemma OpensShared(s: Suite, key: Bytes, wire: Bytes)
    requires |wire| == 60
    ensures T.Unseal(s, T.Shared(key), wire) == s.open(key, wire[..12], None, wire[12..])
  {
    NonceOnWire(wire, 0);
    assert wire[..12] == wire[0..12] && wire[..8] == wire[0..8];
  }

  lemma OpensMaster(s: Suite, master: Bytes, wire: Bytes)
    requires |wire| == 64
    ensures T.Unseal(s, T.Master(master), wire) ==
      s.open(s.hkdf(master, [], AgentInfo(Le32(wire, 0)), 32), wire[4..16], Some(wire[..4]), wire[16..])
  {
    FourBytes(wire, 0);
    NonceOnWire(wire, 4);
  }

  /** And under a master key: the first four bytes name the agent whose key opens the rest,
      and the frame inside must be that agent's. */
  lemma ParseMaster(s: Suite, master: Bytes, wire: Bytes)
    requires |wire| == 64
    ensures var agent := Le32(wire, 0);
      var text := s.open(s.hkdf(master, [], AgentInfo(agent), 32), wire[4..16], Some(wire[..4]), wire[16..]);
      Parse(s, T.Master(master), wire) ==
        if text.Some? && |text.value| == 32 && Decode(text.value).Success? && Decode(text.value).value.pid == agent
        then var f := Decode(text.value).value; Some(Datagram(agent, wire[4..12], Le32(wire, 12), f.nonce, f.timestamp))
        else None
  {
    OpensMaster(s, master, wire);
    FourBytes(wire, 0);
    NonceOnWire(wire, 4);
  }

  /** Datagrams of any other length are not read. */
  lemma ParseLength(s: Suite, secret: T.Secret, wire: Bytes)
    ensures Parse(s, secret, wire).Some? ==> |wire| == if secret.Shared? then 60 else 64
  {}

  function Listener(s: Suite, secret: T.Secret): Bytes -> Option<Datagram> { wire => Parse(s, secret, wire) }

  // ---- what the agent sends -----------------------------------------------

  predicate Sized(k: K.Stack) { |k.beats| == |k.net.accepted| }

  /** The i-th datagram the stack accepted, as the listener should read it. */
  function DatagramAt(s: Suite, k: K.Stack, i: nat): Datagram
    requires Sized(k) && i < |k.beats|
  {
    var e, f := k.net.accepted[i], k.beats[i].frame;
    Datagram(f.pid, T.IvOf(s, e), e.counter, f.nonce, f.timestamp)
  }

  function All(s: Suite, k: K.Stack): (d: seq<Datagram>)
    requires Sized(k)
    ensures |d| == |k.beats|
    ensures forall i :: 0 <= i < |d| ==> d[i] == DatagramAt(s, k, i)
  {
    seq(|k.beats|, i requires 0 <= i < |k.beats| => DatagramAt(s, k, i))
  }

  /** Key derivation gives different sessions and prefix indices different prefixes. */
  predicate PrefixesDiffer(s: Suite, accepted: seq<T.Entry>) {
    forall a, b :: a in accepted && b in accepted && T.IvOf(s, a) == T.IvOf(s, b) ==>
      a.session == b.session && a.prefixIndex == b.prefixIndex
  }

  /** The salts a run drew differ, and key derivation does not collide on its inputs. */
  predicate SaltsTell(s: Suite, r: T.Run) { S.SaltsDiffer(r.drawn) && NoCollision(s, S.Inputs(r.accepted)) }

  lemma PrefixesTell(s: Suite, r: T.Run)
    requires T.NonceInv(s, r) && SaltsTell(s, r)
    ensures PrefixesDiffer(s, r.accepted)
  {
    forall a, b | a in r.accepted && b in r.accepted && T.IvOf(s, a) == T.IvOf(s, b)
      ensures a.session == b.session && a.prefixIndex == b.prefixIndex
    {
      var i :| 0 <= i < |r.accepted| && r.accepted[i] == a;
      var j :| 0 <= j < |r.accepted| && r.accepted[j] == b;
      S.PrefixTells(s, r, i, j);
    }
  }

  /** No prefix is all zeros, which the guard takes for no prefix. */
  predicate NoneZero(s: Suite, accepted: seq<T.Entry>) {
    forall e :: e in accepted ==> T.IvOf(s, e) != [0, 0, 0, 0, 0, 0, 0, 0]
  }

  /** The frames a receiver does not reject: no reserved process id, no saturated clock. */
  predicate Readable(f: Frame) { f.pid >= 2 && f.timestamp != U64_MAX }

  // ---- the wire carries what the guard needs ------------------------------

  lemma SealedEntry(s: Suite, r: T.Run, n: nat)
    requires T.NonceInv(s, r) && n < |r.accepted|
    ensures var e := r.accepted[n]; T.Seal(s, r.t.secret, e.pid, T.IvOf(s, e), e.counter, e.text) == Some(e.wire)
  {
    assert T.EntryOk(s, r.t.secret, r.accepted, n);
  }

  lemma HeaderReadsBack(s: Suite, secret: T.Secret, e: T.Entry)
    requires Lawful(s) && T.Seal(s, secret, e.pid, T.IvOf(s, e), e.counter, e.text) == Some(e.wire)
    ensures match secret
      case Shared(_) => |e.wire| == SECURE_SHARED_BYTES && e.wire[..8] == T.IvOf(s, e) && ReadCounter(e.wire, 8) == e.counter
      case Master(_) =>
        && |e.wire| == SECURE_MASTER_BYTES && ReadCounter(e.wire, 0) == e.pid
        && e.wire[4..12] == T.IvOf(s, e) && ReadCounter(e.wire, 12) == e.counter
  {
    var iv, c := T.IvOf(s, e), ToLe(e.counter, 4);
    Pow256Values();
    LeRoundTrip(e.counter, 4);
    match secret
    case Shared(key) =>
      SharedRoundTrip(s, key, iv, e.counter, e.text);
      assert e.wire[..8] == e.wire[..12][..8] && e.wire[8..12] == e.wire[..12][8..];
      assert BuildNonce(iv, e.counter)[..8] == iv && BuildNonce(iv, e.counter)[8..] == c;
    case Master(master) =>
      MasterRoundTrip(s, master, e.pid, iv, e.counter, e.text);
      assert e.wire[4..12] == e.wire[4..16][..8] && e.wire[12..16] == e.wire[4..16][8..];
      assert BuildNonce(iv, e.counter)[..8] == iv && BuildNonce(iv, e.counter)[8..] == c;
  }

  lemma ParsesEntry(s: Suite, secret: T.Secret, e: T.Entry, f: Frame)
    requires Lawful(s) && T.Seal(s, secret, e.pid, T.IvOf(s, e), e.counter, e.text) == Some(e.wire)
    requires K.Receive(s, secret, e.wire) == (if Readable(f) then Some(f) else None) && e.pid == f.pid
    ensures Parse(s, secret, e.wire) ==
      if Readable(f) then Some(Datagram(f.pid, T.IvOf(s, e), e.counter, f.nonce, f.timestamp)) else None
  {
    HeaderReadsBack(s, secret, e);
  }

  /** The listener reads every wire as the agent meant it; those with a reserved process id
      or a saturated clock do not get past it. */
  lemma ParsesBack(s: Suite, k: K.Stack, i: nat)
    requires Lawful(s) && K.Inv(s, k) && i < |k.beats|
    ensures Parse(s, k.net.t.secret, k.net.accepted[i].wire) ==
      if Readable(k.beats[i].frame) then Some(DatagramAt(s, k, i)) else None
  {
    K.ReceiveEntry(s, k, i);
    SealedEntry(s, k.net, i);
    assert k.net.accepted[i].pid == k.beats[i].frame.pid;
    ParsesEntry(s, k.net.t.secret, k.net.accepted[i], k.beats[i].frame);
  }

  lemma TransmittedAt(r: T.Run, i: nat)
    requires T.QueueInv(r) && i < |r.transmitted|
    ensures i < |r.accepted| && r.transmitted[i] == r.accepted[i].wire
  {
    assert (r.transmitted + r.t.queue)[i] == T.Wires(r.accepted)[i];
  }

  // ---- replay safety of everything the stack ever sent --------------------

  /** Of two accepted datagrams with one prefix, the later has the later counter, they share
      a session, and all between them have that prefix too. */
  lemma PrefixKept(s: Suite, r: T.Run, i: nat, j: nat, m: nat)
    requires T.NonceInv(s, r) && PrefixesDiffer(s, r.accepted) && i < j < |r.accepted| && i <= m <= j
    requires T.IvOf(s, r.accepted[i]) == T.IvOf(s, r.accepted[j])
    ensures r.accepted[i].counter < r.accepted[j].counter && r.accepted[i].session == r.accepted[j].session
    ensures T.IvOf(s, r.accepted[m]) == T.IvOf(s, r.accepted[j])
  {
    var a, p, b := r.accepted[i], r.accepted[m], r.accepted[j];
    assert a in r.accepted && b in r.accepted;
    T.SlotsRise(s, r, i, j);
    if i < m < j {
      assert a.session <= p.session <= b.session;
      T.SlotsRise(s, r, i, m);
      T.SlotsRise(s, r, m, j);
    }
  }

  /** Beat `i` has the prefix of the one before, and its nonce has wrapped to zero. */
  predicate WrapsAt(s: Suite, k: K.Stack, i: nat)
    requires Sized(k) && 0 < i < |k.beats|
  {
    T.IvOf(s, k.net.accepted[i - 1]) == T.IvOf(s, k.net.accepted[i]) && k.beats[i].frame.nonce == 0
  }

  /** Nowhere does the beat nonce wrap in mid-prefix. */
  predicate Unwrapped(s: Suite, k: K.Stack)
    requires Sized(k)
  {
    forall i {:trigger WrapsAt(s, k, i)} :: 0 < i < |k.beats| ==> !WrapsAt(s, k, i)
  }

  lemma PairRises(s: Suite, k: K.Stack, i: nat, j: nat)
    requires T.NonceInv(s, k.net) && N.Flow(k) && PrefixesDiffer(s, k.net.accepted) && Unwrapped(s, k)
    requires i < j < |k.beats|
    ensures BothRise(All(s, k), i, j)
  {
    if All(s, k)[i].iv == All(s, k)[j].iv {
      forall m | i < m <= j
        ensures k.beats[m].frame.nonce != 0
      {
        PrefixKept(s, k.net, i, j, m - 1);
        PrefixKept(s, k.net, i, j, m);
        assert !WrapsAt(s, k, m);
      }
      PrefixKept(s, k.net, i, j, i);
      N.SessionNoncesRise(s, k, i, j);
    }
  }

  lemma UnwrappedIsGenuine(s: Suite, k: K.Stack)
    requires T.NonceInv(s, k.net) && N.Flow(k) && PrefixesDiffer(s, k.net.accepted) && Unwrapped(s, k)
    requires forall i :: 0 <= i < |k.beats| ==> !IsTerminal(All(s, k)[i])
    ensures Genuine(set d | d in All(s, k))
  {
    forall i, j | 0 <= i < j < |k.beats|
      ensures BothRise(All(s, k), i, j)
    {
      PairRises(s, k, i, j);
    }
    RisingIsGenuine(All(s, k));
  }

  lemma WrapIsNotGenuine(s: Suite, k: K.Stack, i: nat)
    requires Sized(k) && 0 < i < |k.beats| && WrapsAt(s, k, i)
    requires k.net.accepted[i - 1].counter < k.net.accepted[i].counter
    requires forall i :: 0 <= i < |k.beats| ==> !IsTerminal(All(s, k)[i])
    ensures !Genuine(set d | d in All(s, k))
  {
    FallingIsNot(All(s, k), i - 1, i);
  }

  lemma FindWrap(s: Suite, k: K.Stack) returns (i: nat)
    requires T.NonceInv(s, k.net) && Sized(k) && PrefixesDiffer(s, k.net.accepted) && !Unwrapped(s, k)
    ensures 0 < i < |k.beats| && WrapsAt(s, k, i) && k.net.accepted[i - 1].counter < k.net.accepted[i].counter
  {
    i :| 0 < i < |k.beats| && WrapsAt(s, k, i);
    PrefixKept(s, k.net, i - 1, i, i);
  }

  /** All the datagrams a stack ever accepts, across its sessions, refreshes and reconnects,
      are a genuine sender's, exactly if the beat nonce nowhere wraps in mid-prefix. */
  lemma AllGenuineIff(s: Suite, k: K.Stack)
    requires K.Inv(s, k) && N.Flow(k) && PrefixesDiffer(s, k.net.accepted)
    ensures Genuine(set d | d in All(s, k)) <==> Unwrapped(s, k)
  {
    NoneTerminal(s, k);
    if Unwrapped(s, k) {
      UnwrappedIsGenuine(s, k);
    } else {
      var i := FindWrap(s, k);
      WrapIsNotGenuine(s, k, i);
    }
  }

  lemma NoneTerminal(s: Suite, k: K.Stack)
    requires Sized(k) && K.AllEncoded(k.beats)
    ensures forall i :: 0 <= i < |k.beats| ==> !IsTerminal(All(s, k)[i])
  {
    forall i | 0 <= i < |k.beats|
      ensures !IsTerminal(All(s, k)[i])
    {
      assert K.Encoded(k.beats[i]);
    }
  }

  /** The wires of a stack, as the listener reads them. */
  lemma WiresRead(s: Suite, k: K.Stack)
    requires Lawful(s) && K.Inv(s, k)
    ensures Reads(Listener(s, k.net.t.secret), k.net.transmitted, All(s, k), ReadableBeats(k))
  {
    forall i | 0 <= i < |k.net.transmitted|
      ensures ReadsAt(Listener(s, k.net.t.secret), k.net.transmitted, All(s, k), ReadableBeats(k), i)
    {
      TransmittedAt(k.net, i);
      ParsesBack(s, k, i);
    }
    assert |k.net.transmitted| <= |T.Wires(k.net.accepted)|;
  }

  function ReadableBeats(k: K.Stack): (r: seq<bool>)
    ensures |r| == |k.beats|
    ensures forall i :: 0 <= i < |r| ==> r[i] == Readable(k.beats[i].frame)
  {
    seq(|k.beats|, i requires 0 <= i < |k.beats| => Readable(k.beats[i].frame))
  }

  /** For every schedule of the agent, every process id, and whatever the network does to the
      wires the stack transmitted: the guard accepts no datagram twice in one epoch, nor more
      often than once plus the evictions and silences. */
  lemma ReplaySafe(s: Suite, secret: T.Secret, salt: T.Salt, pid0: u32, now: int, schedule: seq<K.Event>,
                   pid: u32, rs: seq<Reception>)
    requires Lawful(s) && T.KeyOk(secret)
    ensures var k := K.Replay(s, K.Begin(s, secret, salt, pid0, now), schedule);
      Sized(k) &&
      (Unwrapped(s, k) && SaltsTell(s, k.net) && OnlyFrom(Listener(s, secret), rs, k.net.transmitted) ==>
        IsSafe(Heard(Listener(s, secret), pid, rs)))
  {
    var k := K.Replay(s, K.Begin(s, secret, salt, pid0, now), schedule);
    StackFacts(s, secret, salt, pid0, now, schedule);
    if Unwrapped(s, k) && SaltsTell(s, k.net) && OnlyFrom(Listener(s, secret), rs, k.net.transmitted) {
      PrefixesTell(s, k.net);
      WiresRead(s, k);
      AllGenuineIff(s, k);
      HeardIsSafe(Listener(s, secret), pid, rs, k.net.transmitted, All(s, k), ReadableBeats(k));
    }
  }

  /** What every schedule gives. */
  lemma StackFacts(s: Suite, secret: T.Secret, salt: T.Salt, pid0: u32, now: int, schedule: seq<K.Event>)
    requires Lawful(s) && T.KeyOk(secret)
    ensures var k := K.Replay(s, K.Begin(s, secret, salt, pid0, now), schedule);
      K.Inv(s, k) && N.Flow(k) && k.net.t.secret == secret
  {
    var k0 := K.Begin(s, secret, salt, pid0, now);
    K.BeginInv(s, secret, salt, pid0, now);
    K.RunKeepsInv(s, k0, schedule);
    K.RunKeepsSecret(s, k0, schedule);
    N.RunKeepsFlow(s, k0, schedule);
  }

  // ---- wires in order -----------------------------------------------------

  /** Everything a stack ever accepts is laid out in order, without any bound. */
  lemma AllLaidOut(s: Suite, k: K.Stack)
    requires T.NonceInv(s, k.net) && Sized(k) && K.AllEncoded(k.beats)
    requires PrefixesDiffer(s, k.net.accepted) && NoneZero(s, k.net.accepted)
    ensures Layout(All(s, k))
  {
    var all := All(s, k);
    forall i | 0 <= i < |all|
      ensures !IsTerminal(all[i]) && all[i].iv != NO_IV
    {
      assert K.Encoded(k.beats[i]) && k.net.accepted[i] in k.net.accepted;
    }
    forall i, j | 0 <= i < j < |all|
      ensures Laid(all, i, j)
    {
      PairLaid(s, k, i, j);
    }
  }

  lemma PairLaid(s: Suite, k: K.Stack, i: nat, j: nat)
    requires T.NonceInv(s, k.net) && Sized(k) && PrefixesDiffer(s, k.net.accepted) && i < j < |k.beats|
    ensures Laid(All(s, k), i, j)
  {
    var all := All(s, k);
    if all[i].iv == all[j].iv {
      forall m | i <= m <= j
        ensures all[m].iv == all[j].iv && all[i].counter < all[j].counter
      {
        PrefixKept(s, k.net, i, j, m);
      }
      assert all[i].iv == all[j].iv;
    }
  }

  /** The beats of the agent's last session have nonces 1, 2, 3 and so on until they wrap. */
  lemma SessionRises(s: Suite, k: K.Stack, kept: seq<nat>)
    requires K.EndsWithSession(k.agent.accepted, k.beats) && Sized(k) && M.NoncesFollow(k.agent.accepted)
    requires Increasing(kept, |k.beats|) && |k.agent.accepted| < M.NONCE_MODULUS
    requires forall i :: 0 <= i < |kept| ==> kept[i] >= |k.beats| - |k.agent.accepted|
    ensures NoncesRise(Pick(All(s, k), kept))
  {
    var p, o := Pick(All(s, k), kept), |k.beats| - |k.agent.accepted|;
    forall i, j | 0 <= i < j < |p|
      ensures p[i].nonce < p[j].nonce
    {
      SmallNonce(k, o, kept[i]);
      SmallNonce(k, o, kept[j]);
    }
  }

  lemma SmallNonce(k: K.Stack, o: nat, n: nat)
    requires K.EndsWithSession(k.agent.accepted, k.beats) && M.NoncesFollow(k.agent.accepted)
    requires o == |k.beats| - |k.agent.accepted| && o <= n < |k.beats| && |k.agent.accepted| < M.NONCE_MODULUS
    ensures k.beats[n].frame.nonce == n - o + 1
  {
    assert k.agent.accepted[n - o].nonce == (n - o + 1) % M.NONCE_MODULUS;
  }

  /** All positions are of the agent's last session. */
  predicate InSession(k: K.Stack, kept: seq<nat>) {
    forall n :: n in kept ==> n >= |k.beats| - |k.agent.accepted|
  }

  lemma SessionLeads(s: Suite, k: K.Stack, pid: u32, kept: seq<nat>)
    requires K.EndsWithSession(k.agent.accepted, k.beats) && Sized(k) && M.NoncesFollow(k.agent.accepted)
    requires Increasing(kept, |k.beats|) && |k.agent.accepted| < M.NONCE_MODULUS && InSession(k, kept)
    ensures RotationsLead(Pick(All(s, k), Passing(All(s, k), ReadableBeats(k), pid, kept)))
  {
    var passing := Passing(All(s, k), ReadableBeats(k), pid, kept);
    PassingIff(All(s, k), ReadableBeats(k), pid, kept);
    forall i | 0 <= i < |passing|
      ensures passing[i] >= |k.beats| - |k.agent.accepted|
    {
      assert passing[i] in passing;
    }
    SessionRises(s, k, passing);
    RisingLeads(Pick(All(s, k), passing));
  }

  /** What the guard makes of wires in order. */
  ghost predicate OnTime(s: Suite, k: K.Stack, pid: u32, kept: seq<nat>, rs: seq<Reception>)
    requires Sized(k) && Increasing(kept, |k.beats|)
  {
    var ds := Pick(All(s, k), Passing(All(s, k), ReadableBeats(k), pid, kept));
    && (AllInOne(Replay(UNKNOWN, Heard(Listener(s, k.net.t.secret), pid, rs)).history, ds) <==> RotationsLead(ds))
    && (|k.agent.accepted| < M.NONCE_MODULUS && InSession(k, kept) ==> RotationsLead(ds))
  }

  lemma StackOnTime(s: Suite, k: K.Stack, pid: u32, kept: seq<nat>, rs: seq<Reception>)
    requires Lawful(s) && K.Inv(s, k) && PrefixesDiffer(s, k.net.accepted) && NoneZero(s, k.net.accepted)
    requires InSequence(rs, k.net.transmitted, kept) && Increasing(kept, |k.beats|)
    ensures OnTime(s, k, pid, kept, rs)
  {
    WiresRead(s, k);
    AllLaidOut(s, k);
    HeardOnTimeIff(Listener(s, k.net.t.secret), pid, rs, k.net.transmitted, kept, All(s, k), ReadableBeats(k));
    if |k.agent.accepted| < M.NONCE_MODULUS && InSession(k, kept) {
      SessionLeads(s, k, pid, kept);
    }
  }

  /** For every schedule of the agent, every process id, and whichever wires of the stack get
      through, in order and at any times: the guard accepts every readable one, in one epoch,
      exactly if each change of prefix comes with a nonce above all before it.  The wires of
      the agent's last session always do, until its nonce wraps. */
  lemma OnTimeIff(s: Suite, secret: T.Secret, salt: T.Salt, pid0: u32, now: int, schedule: seq<K.Event>,
                  pid: u32, kept: seq<nat>, rs: seq<Reception>)
    requires Lawful(s) && T.KeyOk(secret)
    ensures var k := K.Replay(s, K.Begin(s, secret, salt, pid0, now), schedule);
      && Sized(k) && |k.net.transmitted| <= |k.beats| && k.net.t.secret == secret
      && (InSequence(rs, k.net.transmitted, kept) && SaltsTell(s, k.net) && NoneZero(s, k.net.accepted) ==>
            OnTime(s, k, pid, kept, rs))
  {
    var k := K.Replay(s, K.Begin(s, secret, salt, pid0, now), schedule);
    StackFacts(s, secret, salt, pid0, now, schedule);
    assert |k.net.transmitted| <= |T.Wires(k.net.accepted)|;
    if InSequence(rs, k.net.transmitted, kept) && SaltsTell(s, k.net) && NoneZero(s, k.net.accepted) {
      PrefixesTell(s, k.net);
      StackOnTime(s, k, pid, kept, rs);
    }
  }
}
