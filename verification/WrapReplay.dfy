/** The wrap of the beat nonce, end to end: a schedule and a delivery of its wires under which
    the guard accepts a beat twice in one epoch. */
module WrapReplay {
  import opened Wrappers
  import opened Words
  import opened VlpFrame
  import opened SecureWire
  import opened ReplayGuard
  import opened Reception
  import M = BeatMachine
  import T = SecureTransport
  import K = NodeStack
  import W = NodeWrap
  import E = ReplayEndToEnd

  /** The four beats around the wrap: the last before it, the first after it, and one of each
      of two further sessions. */
  const LAST: nat := M.NONCE_MODULUS - 2

  /** A regular frame of process 2 with the given nonce. */
  predicate Carries(k: K.Stack, i: nat, nonce: nat) {
    i < |k.beats| && k.beats[i].frame.pid == 2 && k.beats[i].frame.nonce == nonce != NONCE_TERMINAL
  }

  lemma FramesAround(s: Suite, k: K.Stack)
    requires W.Steady(s, k, LAST + 4)
    ensures Carries(k, LAST, NONCE_TERMINAL - 1) && Carries(k, LAST + 1, 0)
    ensures Carries(k, LAST + 2, 1) && Carries(k, LAST + 3, 2)
  {
    Residues();
    FrameAt(s, k, LAST, NONCE_TERMINAL - 1);
    FrameAt(s, k, LAST + 1, 0);
    FrameAt(s, k, LAST + 2, 1);
    FrameAt(s, k, LAST + 3, 2);
  }

  lemma Residues()
    ensures (LAST + 1) % M.NONCE_MODULUS == NONCE_TERMINAL - 1 && (LAST + 2) % M.NONCE_MODULUS == 0
    ensures (LAST + 3) % M.NONCE_MODULUS == 1 && (LAST + 4) % M.NONCE_MODULUS == 2
  {}

  lemma FrameAt(s: Suite, k: K.Stack, i: nat, nonce: nat)
    requires W.Steady(s, k, LAST + 4) && i < LAST + 4 && nonce == (i + 1) % M.NONCE_MODULUS
    ensures Carries(k, i, nonce)
  {
    W.SteadyFrames(s, k, LAST + 4, i);
  }

  /** The prefixes of the four beats: the first two share one, the others have their own. */
  lemma PrefixesAround(s: Suite, x: seq<T.Entry>)
    requires W.Wrapped(x) && E.PrefixesDiffer(s, x) && E.NoneZero(s, x)
    ensures T.IvOf(s, x[LAST]) == T.IvOf(s, x[LAST + 1])
    ensures T.IvOf(s, x[LAST + 1]) != T.IvOf(s, x[LAST + 2]) && T.IvOf(s, x[LAST + 1]) != T.IvOf(s, x[LAST + 3])
    ensures T.IvOf(s, x[LAST + 2]) != T.IvOf(s, x[LAST + 3])
    ensures T.IvOf(s, x[LAST + 1]) != NO_IV && T.IvOf(s, x[LAST + 2]) != NO_IV && T.IvOf(s, x[LAST + 3]) != NO_IV
  {
    assert x[LAST + 1] in x && x[LAST + 2] in x && x[LAST + 3] in x;
  }

  predicate WrapsAround(last: Datagram, first: Datagram, b: Datagram, c: Datagram) {
    && Falls(last, first) && Rotation(first, b) && Rotation(b, c) && Rotation(first, c) && c.nonce < last.nonce
    && last.pid == first.pid == b.pid == c.pid == 2
  }

  lemma AroundWrap(s: Suite, k: K.Stack)
    requires E.Sized(k) && W.Wrapped(k.net.accepted)
    requires E.PrefixesDiffer(s, k.net.accepted) && E.NoneZero(s, k.net.accepted)
    requires Carries(k, LAST, NONCE_TERMINAL - 1) && Carries(k, LAST + 1, 0)
    requires Carries(k, LAST + 2, 1) && Carries(k, LAST + 3, 2)
    ensures WrapsAround(E.DatagramAt(s, k, LAST), E.DatagramAt(s, k, LAST + 1),
                        E.DatagramAt(s, k, LAST + 2), E.DatagramAt(s, k, LAST + 3))
  {
    PrefixesAround(s, k.net.accepted);
  }

  /** The listener reads the wire of beat `i` as its datagram. */
  lemma ArrivesAs(s: Suite, k: K.Stack, i: nat)
    requires Lawful(s) && W.Steady(s, k, LAST + 4) && i < LAST + 4
    ensures E.Sized(k) && i < |k.net.transmitted|
    ensures E.Listener(s, k.net.t.secret)(k.net.transmitted[i]) == Some(E.DatagramAt(s, k, i))
  {
    assert k.net.transmitted == T.Wires(k.net.accepted);
    W.SteadyFrames(s, k, LAST + 4, i);
    E.ParsesBack(s, k, i);
  }

  /** Four wires around a wrap can be delivered so that one is accepted twice in one epoch. */
  lemma UnsafeWires(parse: Bytes -> Option<Datagram>, wires: seq<Bytes>, i: nat,
                    last: Datagram, first: Datagram, b: Datagram, c: Datagram) returns (rs: seq<Reception>)
    requires i + 3 < |wires| && WrapsAround(last, first, b, c)
    requires parse(wires[i]) == Some(last) && parse(wires[i + 1]) == Some(first)
    requires parse(wires[i + 2]) == Some(b) && parse(wires[i + 3]) == Some(c)
    ensures OnlyFrom(parse, rs, wires) && !EpochsRise(Replay(UNKNOWN, Heard(parse, 2, rs)).history)
  {
    var r, r' := Received(wires[i + 1], 0, 1, true), Received(wires[i], 0, 1, true);
    var rb, rc := Received(wires[i + 2], 0, 1, true), Received(wires[i + 3], 0, 1, true);
    rs := [r, rb, rc, r', r, Evicted];
    HeardEach(parse, 2, rs, [Arrive(first, 0, 1, true), Arrive(b, 0, 1, true), Arrive(c, 0, 1, true),
                             Arrive(last, 0, 1, true), Arrive(first, 0, 1, true), Forget]);
    TwiceInOne(last, first, b, c);
  }

  /** What reaching the wrap allows: the first beat after it is accepted twice in one epoch. */
  lemma WrapIsUnsafe(s: Suite, k: K.Stack) returns (rs: seq<Reception>)
    requires Lawful(s) && W.Steady(s, k, LAST + 4) && W.Wrapped(k.net.accepted)
    requires E.PrefixesDiffer(s, k.net.accepted) && E.NoneZero(s, k.net.accepted)
    ensures OnlyFrom(E.Listener(s, k.net.t.secret), rs, k.net.transmitted)
    ensures !EpochsRise(Replay(UNKNOWN, Heard(E.Listener(s, k.net.t.secret), 2, rs)).history)
  {
    FramesAround(s, k);
    ArrivesAs(s, k, LAST);
    ArrivesAs(s, k, LAST + 1);
    ArrivesAs(s, k, LAST + 2);
    ArrivesAs(s, k, LAST + 3);
    AroundWrap(s, k);
    rs := UnsafeWires(E.Listener(s, k.net.t.secret), k.net.transmitted, LAST, E.DatagramAt(s, k, LAST),
                      E.DatagramAt(s, k, LAST + 1), E.DatagramAt(s, k, LAST + 2), E.DatagramAt(s, k, LAST + 3));
  }

  lemma TwiceInOne(last: Datagram, first: Datagram, b: Datagram, c: Datagram)
    requires WrapsAround(last, first, b, c)
    ensures !EpochsRise(Replay(UNKNOWN, [Arrive(first, 0, 1, true), Arrive(b, 0, 1, true), Arrive(c, 0, 1, true),
                                         Arrive(last, 0, 1, true), Arrive(first, 0, 1, true), Forget]).history)
  {
    WrapReplays(last, first, b, c, 0, 1);
    var h := Replay(UNKNOWN, [Arrive(first, 0, 1, true), Arrive(b, 0, 1, true), Arrive(c, 0, 1, true),
                              Arrive(last, 0, 1, true), Arrive(first, 0, 1, true), Forget]).history;
    assert h[0].d == h[4].d && h[0].epoch == h[4].epoch;
  }

  /** The condition on nonces is needed of the stack itself: for every lawful suite, key and
      randomness that tell the prefixes apart, a schedule of 2^64 + 1 beats, and a delivery of its
      wires, after which the guard has accepted a beat twice in one epoch. */
  lemma UnsafeAfterWrap(s: Suite, secret: T.Secret, salt: T.Salt, random: nat -> T.Salt)
    returns (schedule: seq<K.Event>, rs: seq<Reception>)
    requires Lawful(s) && T.KeyOk(secret)
    ensures var k := K.Replay(s, K.Begin(s, secret, salt, 2, 0), schedule);
      E.SaltsTell(s, k.net) && E.NoneZero(s, k.net.accepted) ==>
        && OnlyFrom(E.Listener(s, secret), rs, k.net.transmitted)
        && !EpochsRise(Replay(UNKNOWN, Heard(E.Listener(s, secret), 2, rs)).history)
  {
    schedule := W.WrapRun(s, secret, salt, random);
    var k0 := K.Begin(s, secret, salt, 2, 0);
    var k := K.Replay(s, k0, schedule);
    K.RunKeepsSecret(s, k0, schedule);
    rs := [];
    if E.SaltsTell(s, k.net) && E.NoneZero(s, k.net.accepted) {
      E.PrefixesTell(s, k.net);
      rs := WrapIsUnsafe(s, k);
    }
  }
}
