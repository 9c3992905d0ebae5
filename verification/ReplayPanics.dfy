/** The replay guard against an agent together with its panic hook: both seal under one key,
    and the listener files their datagrams under one process id. */
module ReplayPanics {
  import opened Wrappers
  import opened Words
  import opened VlpFrame
  import opened SecureWire
  import opened ReplayGuard
  import opened Reception
  import C = PanicClaims
  import P = PanicFrames
  import S = SecureSessions
  import T = SecureTransport
  import K = NodeStack
  import N = NodeSessions
  import E = ReplayEndToEnd

  /** One panic frame as it is sent: by whom, with which claimed timestamp and counter. */
  datatype Shot = Shot(pid: u32, timestamp: u64, counter: u32)

  function ShotDatagram(s: Suite, salt: Bytes, x: Shot): Datagram {
    Datagram(x.pid, P.PanicIv(s, salt, x.pid, x.timestamp, x.counter), x.counter, NONCE_TERMINAL, x.timestamp)
  }

  function ShotWire(s: Suite, key: Bytes, salt: Bytes, x: Shot): Bytes {
    var wire := P.BuildSecurePanicFrame(s, key, salt, x.pid, x.timestamp, x.counter);
    if wire.Some? then wire.value else []
  }

  /** The frames of an installation, each sent by some process of its lineage. */
  predicate ShotsOf(shots: seq<Shot>, frames: seq<P.PanicFrame>) {
    |shots| == |frames| && forall i :: 0 <= i < |shots| ==>
      shots[i].timestamp == frames[i].timestamp && shots[i].counter == frames[i].counter
  }

  function Datagrams(s: Suite, salt: Bytes, shots: seq<Shot>): (d: seq<Datagram>)
    ensures |d| == |shots| && forall i :: 0 <= i < |d| ==> d[i] == ShotDatagram(s, salt, shots[i])
  {
    seq(|shots|, i requires 0 <= i < |shots| => ShotDatagram(s, salt, shots[i]))
  }

  function Wires(s: Suite, key: Bytes, salt: Bytes, shots: seq<Shot>): (w: seq<Bytes>)
    ensures |w| == |shots| && forall i :: 0 <= i < |w| ==> w[i] == ShotWire(s, key, salt, shots[i])
  {
    seq(|shots|, i requires 0 <= i < |shots| => ShotWire(s, key, salt, shots[i]))
  }

  function Readables(shots: seq<Shot>): (r: seq<bool>)
    ensures |r| == |shots| && forall i :: 0 <= i < |r| ==> r[i] == (shots[i].pid >= 2)
  {
    seq(|shots|, i requires 0 <= i < |shots| => shots[i].pid >= 2)
  }

  // ---- the listener reads panic frames ------------------------------------

  lemma NonceReadsBack(iv: Bytes, counter: u32, wire: Bytes)
    requires |iv| == 8 && |wire| >= 12 && wire[..12] == BuildNonce(iv, counter)
    ensures wire[..8] == iv && ReadCounter(wire, 8) == counter
  {
    Pow256Values();
    LeRoundTrip(counter, 4);
    assert wire[..8] == wire[..12][..8] && wire[8..12] == wire[..12][8..];
    assert BuildNonce(iv, counter)[..8] == iv && BuildNonce(iv, counter)[8..] == ToLe(counter, 4);
  }

  /** The listener reads a panic frame's prefix, counter, process id and timestamp, exactly
      unless its process id is reserved. */
  lemma ShotParses(s: Suite, key: Bytes, salt: Bytes, x: Shot)
    requires Lawful(s) && |key| == KEY_BYTES && x.timestamp <= C.LIMIT
    ensures E.Parse(s, T.Shared(key), ShotWire(s, key, salt, x)) ==
      if x.pid >= 2 then Some(ShotDatagram(s, salt, x)) else None
  {
    var iv := P.PanicIv(s, salt, x.pid, x.timestamp, x.counter);
    var f := P.Terminal(x.pid, x.timestamp);
    P.PanicFrameArrives(s, key, salt, x.pid, x.timestamp, x.counter);
    SharedRoundTrip(s, key, iv, x.counter, Encode(f));
    DecodeOfEncode(f);
    var wire := ShotWire(s, key, salt, x);
    assert |iv| == 8;
    NonceReadsBack(iv, x.counter, wire);
  }

  lemma ShotsRead(s: Suite, key: Bytes, salt: Bytes, shots: seq<Shot>)
    requires Lawful(s) && |key| == KEY_BYTES && forall i :: 0 <= i < |shots| ==> shots[i].timestamp <= C.LIMIT
    ensures Reads(E.Listener(s, T.Shared(key)), Wires(s, key, salt, shots), Datagrams(s, salt, shots), Readables(shots))
  {
    forall i | 0 <= i < |shots|
      ensures ReadsAt(E.Listener(s, T.Shared(key)), Wires(s, key, salt, shots), Datagrams(s, salt, shots),
                      Readables(shots), i)
    {
      ShotParses(s, key, salt, shots[i]);
    }
  }

  // ---- replay safety of agent and hook together ---------------------------

  function InfoOf(x: Shot): Bytes { P.PanicInfo(x.pid, x.timestamp, x.counter) }

  function IvOf(s: Suite, salt: Bytes, x: Shot): Bytes { P.PanicIv(s, salt, x.pid, x.timestamp, x.counter) }

  /** The inputs of key derivation for the panic frames. */
  function Inputs(salt: Bytes, shots: seq<Shot>): (x: seq<(Bytes, Bytes)>)
    ensures |x| == |shots| && forall i :: 0 <= i < |x| ==> x[i] == (salt, InfoOf(shots[i]))
  {
    seq(|shots|, i requires 0 <= i < |shots| => (salt, InfoOf(shots[i])))
  }

  /** The salts the agent drew differ, and key derivation does not collide on the inputs of
      agent and hook. */
  predicate SaltsTell(s: Suite, r: T.Run, salt: Bytes, shots: seq<Shot>) {
    S.SaltsDiffer(r.drawn) && NoCollision(s, S.Inputs(r.accepted) + Inputs(salt, shots))
  }

  /** Different panic inputs have different prefixes, and none that the agent uses. */
  predicate PanicPrefixesDiffer(s: Suite, salt: Bytes, shots: seq<Shot>, accepted: seq<T.Entry>) {
    && (forall x, y :: x in shots && y in shots && IvOf(s, salt, x) == IvOf(s, salt, y) ==> InfoOf(x) == InfoOf(y))
    && (forall x, e :: x in shots && e in accepted ==> IvOf(s, salt, x) != T.IvOf(s, e))
  }

  lemma ShotsTell(s: Suite, r: T.Run, salt: Bytes, shots: seq<Shot>, i: nat, j: nat)
    requires SaltsTell(s, r, salt, shots) && i < |shots| && j < |shots|
    requires IvOf(s, salt, shots[i]) == IvOf(s, salt, shots[j])
    ensures InfoOf(shots[i]) == InfoOf(shots[j])
  {
    var n, all := |r.accepted|, S.Inputs(r.accepted) + Inputs(salt, shots);
    assert all[n + i] == all[n + j];
  }

  lemma ShotTellsBeat(s: Suite, r: T.Run, salt: Bytes, shots: seq<Shot>, i: nat, j: nat)
    requires SaltsTell(s, r, salt, shots) && i < |shots| && j < |r.accepted|
    ensures IvOf(s, salt, shots[i]) != T.IvOf(s, r.accepted[j])
  {
    var n, all, x := |r.accepted|, S.Inputs(r.accepted) + Inputs(salt, shots), shots[i];
    P.PanicInfoLayout(x.pid, x.timestamp, x.counter);
    assert |IvInfo(r.accepted[j].prefixIndex)| == 23;
    assert all[n + i] == (salt, InfoOf(x)) && all[j] == (r.accepted[j].salt, IvInfo(r.accepted[j].prefixIndex));
  }

  lemma PrefixesTell(s: Suite, r: T.Run, salt: Bytes, shots: seq<Shot>)
    requires T.NonceInv(s, r) && SaltsTell(s, r, salt, shots)
    ensures E.PrefixesDiffer(s, r.accepted) && PanicPrefixesDiffer(s, salt, shots, r.accepted)
  {
    BeatsTell(s, r, salt, shots);
    E.PrefixesTell(s, r);
    forall x, y | x in shots && y in shots && IvOf(s, salt, x) == IvOf(s, salt, y)
      ensures InfoOf(x) == InfoOf(y)
    {
      var i :| 0 <= i < |shots| && shots[i] == x;
      var j :| 0 <= j < |shots| && shots[j] == y;
      ShotsTell(s, r, salt, shots, i, j);
    }
    forall x, e | x in shots && e in r.accepted
      ensures IvOf(s, salt, x) != T.IvOf(s, e)
    {
      var i :| 0 <= i < |shots| && shots[i] == x;
      var j :| 0 <= j < |r.accepted| && r.accepted[j] == e;
      ShotTellsBeat(s, r, salt, shots, i, j);
    }
  }

  lemma BeatsTell(s: Suite, r: T.Run, salt: Bytes, shots: seq<Shot>)
    requires SaltsTell(s, r, salt, shots)
    ensures E.SaltsTell(s, r)
  {
    var x, all := S.Inputs(r.accepted), S.Inputs(r.accepted) + Inputs(salt, shots);
    assert forall i :: 0 <= i < |x| ==> all[i] == x[i];
  }

  /** Two shots of one prefix are one shot. */
  lemma ShotsDiffer(s: Suite, salt: Bytes, shots: seq<Shot>, x: Shot, y: Shot, accepted: seq<T.Entry>)
    requires PanicPrefixesDiffer(s, salt, shots, accepted) && x in shots && y in shots
    requires IvOf(s, salt, x) == IvOf(s, salt, y)
    ensures x == y
  {
    P.PanicInfoInjective(x.pid, x.timestamp, x.counter, y.pid, y.timestamp, y.counter);
  }

  lemma ShotsAreOne(s: Suite, salt: Bytes, shots: seq<Shot>, accepted: seq<T.Entry>, t: Datagram, d: Datagram)
    requires PanicPrefixesDiffer(s, salt, shots, accepted)
    requires t in Datagrams(s, salt, shots) && d in Datagrams(s, salt, shots) && t.iv == d.iv
    ensures t == d
  {
    var i :| 0 <= i < |shots| && Datagrams(s, salt, shots)[i] == t;
    var j :| 0 <= j < |shots| && Datagrams(s, salt, shots)[j] == d;
    ShotsDiffer(s, salt, shots, shots[i], shots[j], accepted);
  }

  lemma ShotIsNoBeat(s: Suite, k: K.Stack, salt: Bytes, shots: seq<Shot>, t: Datagram, d: Datagram)
    requires E.Sized(k) && PanicPrefixesDiffer(s, salt, shots, k.net.accepted)
    requires t in Datagrams(s, salt, shots) && d in E.All(s, k)
    ensures t.iv != d.iv
  {
    var i :| 0 <= i < |shots| && Datagrams(s, salt, shots)[i] == t;
    var j :| 0 <= j < |k.beats| && E.All(s, k)[j] == d;
    var x, e := shots[i], k.net.accepted[j];
    assert x in shots && e in k.net.accepted;
  }

  lemma TogetherGenuine(s: Suite, k: K.Stack, salt: Bytes, shots: seq<Shot>)
    requires E.Sized(k) && Genuine(set d | d in E.All(s, k)) && K.AllEncoded(k.beats)
    requires PanicPrefixesDiffer(s, salt, shots, k.net.accepted)
    ensures Genuine((set d | d in E.All(s, k)) + (set d | d in Datagrams(s, salt, shots)))
  {
    var regular, terminal := (set d | d in E.All(s, k)), (set d | d in Datagrams(s, salt, shots));
    E.NoneTerminal(s, k);
    forall t, d | t in terminal && (d in regular || d in terminal) && t.iv == d.iv
      ensures t == d
    {
      if d in regular {
        ShotIsNoBeat(s, k, salt, shots, t, d);
      } else {
        ShotsAreOne(s, salt, shots, k.net.accepted, t, d);
      }
    }
    GenuineUnion(regular, terminal);
  }

  lemma ShotsInRange(f: C.Flavour, steps: seq<P.Step>, shots: seq<Shot>)
    requires P.IsRun(f, P.INSTALLED, steps) && ShotsOf(shots, P.Final(f, P.INSTALLED, steps).frames)
    ensures forall i :: 0 <= i < |shots| ==> shots[i].timestamp <= C.LIMIT
  {
    forall i | 0 <= i < |shots|
      ensures shots[i].timestamp <= C.LIMIT
    {
      P.FramesDistinct(f, steps, i, i);
    }
  }

  lemma TogetherSafe(s: Suite, k: K.Stack, key: Bytes, salt: Bytes, shots: seq<Shot>, pid: u32, rs: seq<Reception>)
    requires Lawful(s) && |key| == KEY_BYTES && K.Inv(s, k) && N.Flow(k) && k.net.t.secret == T.Shared(key)
    requires E.PrefixesDiffer(s, k.net.accepted) && E.Unwrapped(s, k)
    requires PanicPrefixesDiffer(s, salt, shots, k.net.accepted)
    requires forall i :: 0 <= i < |shots| ==> shots[i].timestamp <= C.LIMIT
    requires OnlyFrom(E.Listener(s, T.Shared(key)), rs, k.net.transmitted + Wires(s, key, salt, shots))
    ensures IsSafe(Heard(E.Listener(s, T.Shared(key)), pid, rs))
  {
    var parse, n := E.Listener(s, T.Shared(key)), |k.net.transmitted|;
    var ds := Datagrams(s, salt, shots);
    E.WiresRead(s, k);
    ShotsRead(s, key, salt, shots);
    ReadsBoth(parse, k.net.transmitted, E.All(s, k), E.ReadableBeats(k), Wires(s, key, salt, shots), ds, Readables(shots));
    E.AllGenuineIff(s, k);
    TogetherGenuine(s, k, salt, shots);
    var all := E.All(s, k)[..n] + ds;
    GenuineSubset((set d | d in all), (set d | d in E.All(s, k)) + (set d | d in ds));
    HeardIsSafe(parse, pid, rs, k.net.transmitted + Wires(s, key, salt, shots), all, E.ReadableBeats(k)[..n] + Readables(shots));
  }

  /** For every schedule of an agent under a shared key, every interleaving of claims in a
      panic hook under that key, and whatever the network does to the wires of both: the guard
      accepts no datagram twice in one epoch, nor more often than once plus the evictions and
      silences. */
  lemma ReplaySafeWithPanics(s: Suite, key: Bytes, salt0: T.Salt, pid0: u32, now: int, schedule: seq<K.Event>,
                             f: C.Flavour, steps: seq<P.Step>, salt: Bytes, shots: seq<Shot>,
                             pid: u32, rs: seq<Reception>)
    requires Lawful(s) && |key| == KEY_BYTES
    requires P.IsRun(f, P.INSTALLED, steps) && ShotsOf(shots, P.Final(f, P.INSTALLED, steps).frames)
    ensures var k := K.Replay(s, K.Begin(s, T.Shared(key), salt0, pid0, now), schedule);
      && E.Sized(k)
      && (E.Unwrapped(s, k) && SaltsTell(s, k.net, salt, shots)
          && OnlyFrom(E.Listener(s, T.Shared(key)), rs, k.net.transmitted + Wires(s, key, salt, shots)) ==>
            IsSafe(Heard(E.Listener(s, T.Shared(key)), pid, rs)))
  {
    var k := K.Replay(s, K.Begin(s, T.Shared(key), salt0, pid0, now), schedule);
    E.StackFacts(s, T.Shared(key), salt0, pid0, now, schedule);
    ShotsInRange(f, steps, shots);
    if E.Unwrapped(s, k) && SaltsTell(s, k.net, salt, shots)
       && OnlyFrom(E.Listener(s, T.Shared(key)), rs, k.net.transmitted + Wires(s, key, salt, shots)) {
      PrefixesTell(s, k.net, salt, shots);
      TogetherSafe(s, k, key, salt, shots, pid, rs);
    }
  }
}
