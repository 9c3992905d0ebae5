/** The sessions of the secure transport: where their salts come from, why no AEAD nonce is
    used twice, and what becomes of socket errors. */
module SecureSessions {
  import opened Wrappers
  import opened Words
  import opened SecureWire
  import opened SecureTransport

  // ---- the salts a run draws ----------------------------------------------

  /** The event replaces the session: an explicit reconnect whose socket opens, or a send that
      finds the session full, with no fault waiting, room in the queue, and a socket that
      opens. */
  predicate Replaces(r: Run, e: Event) {
    match e
    case ReconnectCall(net) => net.openFault.None?
    case SendCall(text, _, net) =>
      && r.t.pendingError.None? && |text| == 32 && (r.t.connected || |r.t.queue| < 64)
      && InSession(r.accepted, r.session) == 0x1_0000_0000 * 0xFFFF_FFFF && net.openFault.None?
    case _ => false
  }

  /** The randomness an event meets. */
  function SaltOf(e: Event): seq<Salt> {
    if e.ReconnectCall? || e.SendCall? then [e.net.salt] else []
  }

  /** The salts met by the events that replace the session, in order. */
  function Draws(s: Suite, r: Run, events: seq<Event>): seq<Salt>
    decreases |events|
  {
    if events == [] then [] else DrawsOne(r, events[0]) + Draws(s, Apply(s, r, events[0]), events[1..])
  }

  function DrawsOne(r: Run, e: Event): seq<Salt> { if Replaces(r, e) then SaltOf(e) else [] }

  lemma SendDraws(s: Suite, r: Run, text: Bytes, pid: u32, net: Net)
    requires Lawful(s) && NonceInv(s, r)
    ensures AfterSend(r, Send(s, r.t, text, pid, net), text, pid, net).drawn
         == r.drawn + if Replaces(r, SendCall(text, pid, net)) then [net.salt] else []
  {
    RotatesWhenFull(s, r);
    SendShape(s, r, text, pid, net);
    var r0 := r.(t := r.t.(pendingError := None));
    HandDraws(s, r0, text, pid, net);
    HandDraws(s, AfterReconnect(s, r0, net), text, pid, net);
  }

  lemma HandDraws(s: Suite, r: Run, text: Bytes, pid: u32, net: Net)
    ensures AfterSend(r, Hand(s, r.t, text, pid, net, false), text, pid, net).drawn == r.drawn
  {}

  lemma ApplyDraws(s: Suite, r: Run, e: Event)
    requires Lawful(s) && NonceInv(s, r)
    ensures Apply(s, r, e).drawn == r.drawn + DrawsOne(r, e)
  {
    if e.SendCall? {
      SendDraws(s, r, e.text, e.pid, e.net);
    }
  }

  lemma {:induction false} RunDraws(s: Suite, r: Run, events: seq<Event>)
    requires Lawful(s) && Inv(s, r)
    ensures Replay(s, r, events).drawn == r.drawn + Draws(s, r, events)
    decreases |events|
  {
    if events != [] {
      var z := Apply(s, r, events[0]);
      ApplyDraws(s, r, events[0]);
      ApplyKeepsInv(s, r, events[0]);
      RunDraws(s, z, events[1..]);
      Regroup(r.drawn, DrawsOne(r, events[0]), Draws(s, z, events[1..]));
    }
  }

  /** In every run, session 0 uses the salt it was opened with and session n the salt met by
      the n-th event that replaced the session; every accepted datagram is sealed under the
      salt drawn for its session. */
  lemma SaltsAreDrawn(s: Suite, secret: Secret, salt: Salt, events: seq<Event>)
    requires Lawful(s) && KeyOk(secret)
    ensures var r := Replay(s, Begin(s, secret, salt), events);
      var salts := [salt] + Draws(s, Begin(s, secret, salt), events);
      && r.session + 1 == |salts| && r.t.salt == salts[r.session]
      && forall i :: 0 <= i < |r.accepted| ==>
           var e := r.accepted[i];
           && e.session < |salts| && e.salt == salts[e.session]
           && Seal(s, secret, e.pid, s.hkdf(salts[e.session], [], IvInfo(e.prefixIndex), 8), e.counter, e.text) == Some(e.wire)
  {
    EveryRun(s, secret, salt, []);
    EveryRun(s, secret, salt, events);
    RunDraws(s, Begin(s, secret, salt), events);
    RunSecret(s, Begin(s, secret, salt), events);
    var r := Replay(s, Begin(s, secret, salt), events);
    forall i | 0 <= i < |r.accepted|
      ensures var e := r.accepted[i];
        Seal(s, secret, e.pid, s.hkdf(e.salt, [], IvInfo(e.prefixIndex), 8), e.counter, e.text) == Some(e.wire)
    {
      assert EntryOk(s, secret, r.accepted, i);
    }
  }

  lemma {:induction false} RunSecret(s: Suite, r: Run, events: seq<Event>)
    ensures Replay(s, r, events).t.secret == r.t.secret
    decreases |events|
  {
    if events != [] {
      if events[0].SendCall? {
        SendKeepsSecret(s, r, events[0].text, events[0].pid, events[0].net);
      }
      RunSecret(s, Apply(s, r, events[0]), events[1..]);
    }
  }

  // ---- no nonce twice -----------------------------------------------------

  predicate SaltsDiffer(salts: seq<Salt>) { forall i, j :: 0 <= i < j < |salts| ==> salts[i] != salts[j] }

  /** The inputs of key derivation for the accepted datagrams. */
  function Inputs(accepted: seq<Entry>): (x: seq<(Bytes, Bytes)>)
    ensures |x| == |accepted|
    ensures forall i :: 0 <= i < |x| ==> x[i] == (accepted[i].salt, IvInfo(accepted[i].prefixIndex))
  {
    seq(|accepted|, i requires 0 <= i < |accepted| => (accepted[i].salt, IvInfo(accepted[i].prefixIndex)))
  }

  /** With different salts and no collision in key derivation, a prefix tells its session and
      prefix index. */
  lemma PrefixTells(s: Suite, r: Run, i: nat, j: nat)
    requires NonceInv(s, r) && SaltsDiffer(r.drawn) && NoCollision(s, Inputs(r.accepted))
    requires i < |r.accepted| && j < |r.accepted| && IvOf(s, r.accepted[i]) == IvOf(s, r.accepted[j])
    ensures r.accepted[i].session == r.accepted[j].session && r.accepted[i].prefixIndex == r.accepted[j].prefixIndex
  {
    var a, b, x := r.accepted[i], r.accepted[j], Inputs(r.accepted);
    assert x[i] == x[j];
    InfosDiffer(a.prefixIndex, b.prefixIndex);
  }

  /** The AEAD nonce as it stands in a datagram. */
  function WireNonce(secret: Secret, wire: Bytes): Bytes {
    match secret
    case Shared(_) => if |wire| >= 12 then wire[..12] else []
    case Master(_) => if |wire| >= 16 then wire[4..16] else []
  }

  lemma EntryNonce(s: Suite, r: Run, i: nat)
    requires Lawful(s) && NonceInv(s, r) && i < |r.accepted|
    ensures var e := r.accepted[i]; WireNonce(r.t.secret, e.wire) == BuildNonce(IvOf(s, e), e.counter)
  {
    var e := r.accepted[i];
    assert EntryOk(s, r.t.secret, r.accepted, i);
    match r.t.secret
    case Shared(key) => SharedRoundTrip(s, key, IvOf(s, e), e.counter, e.text);
    case Master(master) => MasterRoundTrip(s, master, e.pid, IvOf(s, e), e.counter, e.text);
  }

  lemma NonceUsedOnce(s: Suite, r: Run, i: nat, j: nat)
    requires Lawful(s) && NonceInv(s, r) && i < j < |r.accepted|
    requires SaltsDiffer(r.drawn) && NoCollision(s, Inputs(r.accepted))
    ensures WireNonce(r.t.secret, r.accepted[i].wire) != WireNonce(r.t.secret, r.accepted[j].wire)
  {
    var a, b := r.accepted[i], r.accepted[j];
    EntryNonce(s, r, i);
    EntryNonce(s, r, j);
    SlotsDistinct(s, r, i, j);
    if BuildNonce(IvOf(s, a), a.counter) == BuildNonce(IvOf(s, b), b.counter) {
      NonceInjective(IvOf(s, a), a.counter, IvOf(s, b), b.counter);
      PrefixTells(s, r, i, j);
    }
  }

  /** In every run whose drawn salts differ, and on whose inputs key derivation does not
      collide, no two accepted datagrams carry the same AEAD nonce. */
  lemma NoncesDistinct(s: Suite, secret: Secret, salt: Salt, events: seq<Event>, i: nat, j: nat)
    requires Lawful(s) && KeyOk(secret)
    requires SaltsDiffer([salt] + Draws(s, Begin(s, secret, salt), events))
    ensures var accepted := Replay(s, Begin(s, secret, salt), events).accepted;
      i < j < |accepted| && NoCollision(s, Inputs(accepted)) ==>
        WireNonce(secret, accepted[i].wire) != WireNonce(secret, accepted[j].wire)
  {
    var r := Replay(s, Begin(s, secret, salt), events);
    EveryRun(s, secret, salt, []);
    EveryRun(s, secret, salt, events);
    RunDraws(s, Begin(s, secret, salt), events);
    RunSecret(s, Begin(s, secret, salt), events);
    if i < j < |r.accepted| && NoCollision(s, Inputs(r.accepted)) {
      NonceUsedOnce(s, r, i, j);
    }
  }

  // ---- socket errors ------------------------------------------------------

  /** The last error that callbacks reported of a socket, or the one that waited before. */
  function LastError(waiting: Option<Fault>, socket: nat, callbacks: seq<Event>): Option<Fault>
    decreases |callbacks|
  {
    if callbacks == [] then waiting
    else
      var last := callbacks[|callbacks| - 1];
      if last.ErrorCallback? && last.socket == socket then Some(last.fault)
      else LastError(waiting, socket, callbacks[..|callbacks| - 1])
  }

  predicate AreCallbacks(events: seq<Event>) {
    forall i :: 0 <= i < |events| ==> events[i].ConnectCallback? || events[i].ErrorCallback?
  }

  lemma {:induction false} ReplayLast(s: Suite, r: Run, events: seq<Event>, e: Event)
    ensures Replay(s, r, events + [e]) == Apply(s, Replay(s, r, events), e)
    decreases |events|
  {
    if events == [] {
      assert [] + [e] == [e] && [e][1..] == [];
    } else {
      assert (events + [e])[1..] == events[1..] + [e];
      ReplayLast(s, Apply(s, r, events[0]), events[1..], e);
    }
  }

  lemma {:induction false} ErrorWaits(s: Suite, r: Run, callbacks: seq<Event>)
    requires AreCallbacks(callbacks)
    ensures var z := Replay(s, r, callbacks);
      z.t.pendingError == LastError(r.t.pendingError, r.t.socket, callbacks) && z.t.socket == r.t.socket
    decreases |callbacks|
  {
    if callbacks != [] {
      var before, e := callbacks[..|callbacks| - 1], callbacks[|callbacks| - 1];
      ErrorWaits(s, r, before);
      assert callbacks == before + [e];
      ReplayLast(s, r, before, e);
    }
  }

  /** A send throws the last error its socket reported since the last call, whatever else
      happened in between; the next send does not throw it again. */
  lemma ErrorIsThrown(s: Suite, r: Run, callbacks: seq<Event>, text: Bytes, pid: u32, net: Net, fault: Fault)
    requires AreCallbacks(callbacks) && LastError(r.t.pendingError, r.t.socket, callbacks) == Some(fault)
    ensures var z := Replay(s, r, callbacks);
      var b := Send(s, z.t, text, pid, net);
      b.Threw? && b.fault == fault && b.transport == z.t.(pendingError := None)
  {
    ErrorWaits(s, r, callbacks);
  }
}
