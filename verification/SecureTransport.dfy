/** The secure UDP transport of the Node client: nonce allocation, the pre-connect
    queue, and socket callbacks, as a state machine over its calls and callbacks. */
module SecureTransport {
  import opened Wrappers
  import opened Words
  import opened SecureWire

  const PRE_CONNECT_QUEUE_LIMIT := 64
  const U32_MODULUS: nat := U32_MAX + 1

  /** Frames one prefix can carry, and one session. */
  const PER_PREFIX: nat := U32_MAX
  const PER_SESSION: nat := U32_MODULUS * PER_PREFIX

  type Salt = b: Bytes | |b| == 16 witness ToLe(0, 16)

  datatype Secret = Shared(key: Bytes) | Master(masterKey: Bytes)

  predicate KeyOk(secret: Secret) {
    match secret
    case Shared(key) => |key| == KEY_BYTES
    case Master(masterKey) => |masterKey| == KEY_BYTES
  }

  /** A thrown or queued error, as the client classifies it. */
  datatype Fault = Droppable | Hard

  /** Sockets are numbered in the order they are created. */
  datatype Transport = Transport(
    secret: Secret,
    socket: nat,
    created: nat,
    connected: bool,
    queue: seq<Bytes>,
    pendingError: Option<Fault>,
    salt: Salt,
    prefixIndex: u32,
    ivPrefix: Bytes,
    counter: u32)

  /** What one call meets: fresh randomness, whether opening a socket throws, and
      whether the synchronous part of a datagram send throws. */
  datatype Net = Net(salt: Salt, openFault: Option<Fault>, sendFault: Option<Fault>)

  datatype Reservation = Reservation(iv: Bytes, counter: u32, nextPrefixIndex: u32, nextIvPrefix: Bytes, nextCounter: u32)

  function Open(s: Suite, secret: Secret, salt: Salt): Transport {
    Transport(secret, 0, 1, false, [], None, salt, 0, DeriveIvPrefix(s, salt, 0), 0)
  }

  /** Rebuild socket and session; if opening throws, only a socket number is spent. */
  function Reconnect(s: Suite, t: Transport, net: Net): (Transport, Option<Fault>) {
    if net.openFault.Some? then (t.(created := t.created + 1), net.openFault)
    else
      (t.(socket := t.created, created := t.created + 1, connected := false, pendingError := None,
          salt := net.salt, prefixIndex := 0, counter := 0, ivPrefix := DeriveIvPrefix(s, net.salt, 0)), None)
  }

  predicate Exhausted(t: Transport) { t.counter == U32_MAX && t.prefixIndex == U32_MAX }

  /** The next nonce, in 32-bit arithmetic. */
  function Reserve(s: Suite, t: Transport): Reservation {
    if t.counter == U32_MAX then
      var index := (t.prefixIndex + 1) % U32_MODULUS;
      var iv := DeriveIvPrefix(s, t.salt, index);
      Reservation(iv, 0, index, iv, 1)
    else
      Reservation(t.ivPrefix, t.counter, t.prefixIndex, t.ivPrefix, (t.counter + 1) % U32_MODULUS)
  }

  function Commit(t: Transport, r: Reservation): Transport {
    t.(prefixIndex := r.nextPrefixIndex, ivPrefix := r.nextIvPrefix, counter := r.nextCounter)
  }

  function Seal(s: Suite, secret: Secret, pid: u32, iv: Bytes, counter: u32, text: Bytes): Option<Bytes> {
    match secret
    case Shared(key) => EncodeShared(s, key, iv, counter, text)
    case Master(masterKey) => EncodeMaster(s, masterKey, pid, iv, counter, text)
  }

  function Unseal(s: Suite, secret: Secret, wire: Bytes): Option<Bytes> {
    match secret
    case Shared(key) => DecodeShared(s, key, wire)
    case Master(masterKey) => DecodeMaster(s, masterKey, wire)
  }

  /** What a send did: the new state, the error it threw, and the accepted datagram
      with the session serial step and nonce slot it used. */
  datatype SendResult =
    | Threw(transport: Transport, fault: Fault, rotated: bool)
    | Accepted(transport: Transport, wire: Bytes, prefixIndex: u32, counter: u32, rotated: bool)

  function Send(s: Suite, t: Transport, text: Bytes, pid: u32, net: Net): SendResult {
    var t0 := t.(pendingError := None);
    if t.pendingError.Some? then Threw(t0, t.pendingError.value, false)
    else if |text| != PLAINTEXT_BYTES then Threw(t0, Hard, false)
    else if !t.connected && |t.queue| >= PRE_CONNECT_QUEUE_LIMIT then Threw(t0, Droppable, false)
    else if Exhausted(t) then
      var (t1, fault) := Reconnect(s, t0, net);
      if fault.Some? then Threw(t1, fault.value, false) else Hand(s, t1, text, pid, net, true)
    else Hand(s, t0, text, pid, net, false)
  }

  /** Seal under the next nonce and queue or transmit; commit the nonce only then. */
  function Hand(s: Suite, t: Transport, text: Bytes, pid: u32, net: Net, rotated: bool): SendResult {
    var r := Reserve(s, t);
    var wire := Seal(s, t.secret, pid, r.iv, r.counter, text);
    if wire.None? then Threw(t, Hard, rotated)
    else if !t.connected then
      Accepted(Commit(t, r).(queue := t.queue + [wire.value]), wire.value, r.nextPrefixIndex, r.counter, rotated)
    else if net.sendFault.Some? then Threw(t, net.sendFault.value, rotated)
    else Accepted(Commit(t, r), wire.value, r.nextPrefixIndex, r.counter, rotated)
  }

  /** The connect callback of `socket` flushes the queue; a retired socket's does nothing. */
  function OnConnect(t: Transport, socket: nat): (Transport, seq<Bytes>) {
    if t.socket != socket then (t, []) else (t.(connected := true, queue := []), t.queue)
  }

  /** An error event or a failed send callback of `socket`. */
  function OnError(t: Transport, socket: nat, fault: Fault): Transport {
    if t.socket != socket then t else t.(pendingError := Some(fault))
  }

  // ---- runs ---------------------------------------------------------------

  datatype Event =
    | SendCall(text: Bytes, pid: u32, net: Net)
    | ReconnectCall(net: Net)
    | ConnectCallback(socket: nat)
    | ErrorCallback(socket: nat, fault: Fault)

  /** One accepted datagram: its session's serial number and salt, its nonce slot, what
      was sealed, and the sealed datagram. */
  datatype Entry = Entry(session: nat, salt: Salt, prefixIndex: u32, counter: u32, pid: u32, text: Bytes, wire: Bytes)

  /** A transport with its history: `drawn` lists the salts taken from the network's
      randomness, one for each session so far. */
  datatype Run = Run(t: Transport, session: nat, drawn: seq<Salt>, accepted: seq<Entry>, transmitted: seq<Bytes>)

  function Begin(s: Suite, secret: Secret, salt: Salt): Run {
    Run(Open(s, secret, salt), 0, [salt], [], [])
  }

  function AfterSend(r: Run, b: SendResult, text: Bytes, pid: u32, net: Net): Run {
    var session := if b.rotated then r.session + 1 else r.session;
    var drawn := if b.rotated then r.drawn + [net.salt] else r.drawn;
    match b
    case Threw(t, _, _) => r.(t := t, session := session, drawn := drawn)
    case Accepted(t, wire, index, counter, _) =>
      Run(t, session, drawn, r.accepted + [Entry(session, t.salt, index, counter, pid, text, wire)],
          if t.connected then r.transmitted + [wire] else r.transmitted)
  }

  function AfterReconnect(s: Suite, r: Run, net: Net): Run {
    var (t, fault) := Reconnect(s, r.t, net);
    if fault.Some? then r.(t := t) else r.(t := t, session := r.session + 1, drawn := r.drawn + [net.salt])
  }

  function Apply(s: Suite, r: Run, e: Event): Run {
    match e
    case SendCall(text, pid, net) => AfterSend(r, Send(s, r.t, text, pid, net), text, pid, net)
    case ReconnectCall(net) => AfterReconnect(s, r, net)
    case ConnectCallback(socket) =>
      var (t, flushed) := OnConnect(r.t, socket);
      r.(t := t, transmitted := r.transmitted + flushed)
    case ErrorCallback(socket, fault) => r.(t := OnError(r.t, socket, fault))
  }

  function Replay(s: Suite, r: Run, events: seq<Event>): Run
    decreases |events|
  {
    if events == [] then r else Replay(s, Apply(s, r, events[0]), events[1..])
  }

  // ---- nonce accounting ---------------------------------------------------

  /** How many of the entries belong to a session. */
  function InSession(accepted: seq<Entry>, session: nat): nat
    decreases |accepted|
  {
    if accepted == [] then 0
    else
      var last := |accepted| - 1;
      InSession(accepted[..last], session) + if accepted[last].session == session then 1 else 0
  }

  /** The serial position of a nonce slot within its session. */
  function Slot(prefixIndex: nat, counter: nat): nat { prefixIndex * PER_PREFIX + counter }

  predicate EntryOk(s: Suite, secret: Secret, accepted: seq<Entry>, i: nat)
    requires i < |accepted|
  {
    var e := accepted[i];
    && e.counter < PER_PREFIX
    && Slot(e.prefixIndex, e.counter) == InSession(accepted[..i], e.session)
    && |e.text| == PLAINTEXT_BYTES
    && Seal(s, secret, e.pid, DeriveIvPrefix(s, e.salt, e.prefixIndex), e.counter, e.text) == Some(e.wire)
  }

  function Wires(accepted: seq<Entry>): (w: seq<Bytes>)
    ensures |w| == |accepted|
  {
    seq(|accepted|, i requires 0 <= i < |accepted| => accepted[i].wire)
  }

  /** Sessions follow one another, each with the salt drawn for it. */
  predicate SessionsInOrder(accepted: seq<Entry>, drawn: seq<Salt>) {
    && (forall i :: 0 <= i < |accepted| ==>
          accepted[i].session < |drawn| && accepted[i].salt == drawn[accepted[i].session])
    && (forall i, j :: 0 <= i < j < |accepted| ==> accepted[i].session <= accepted[j].session)
  }

  predicate AllOk(s: Suite, secret: Secret, accepted: seq<Entry>) {
    forall i {:trigger EntryOk(s, secret, accepted, i)} :: 0 <= i < |accepted| ==> EntryOk(s, secret, accepted, i)
  }

  /** Nonce state: the current session's slots are used up in order. */
  predicate NonceInv(s: Suite, r: Run) {
    && KeyOk(r.t.secret)
    && r.t.ivPrefix == DeriveIvPrefix(s, r.t.salt, r.t.prefixIndex)
    && Slot(r.t.prefixIndex, r.t.counter) == InSession(r.accepted, r.session)
    && |r.drawn| == r.session + 1 && r.t.salt == r.drawn[r.session]
    && SessionsInOrder(r.accepted, r.drawn)
    && AllOk(s, r.t.secret, r.accepted)
  }

  /** Queue state: nothing accepted is lost, duplicated or reordered. */
  predicate QueueInv(r: Run) {
    && Wires(r.accepted) == r.transmitted + r.t.queue
    && (r.t.connected ==> r.t.queue == [])
    && |r.t.queue| <= PRE_CONNECT_QUEUE_LIMIT
    && r.t.socket < r.t.created
  }

  predicate Inv(s: Suite, r: Run) { NonceInv(s, r) && QueueInv(r) }

  lemma {:induction false} UnseenSession(accepted: seq<Entry>, session: nat)
    requires forall i :: 0 <= i < |accepted| ==> accepted[i].session < session
    ensures InSession(accepted, session) == 0
    decreases |accepted|
  {
    if accepted != [] {
      UnseenSession(accepted[..|accepted| - 1], session);
    }
  }

  lemma SlotNext(p: nat)
    ensures Slot(p + 1, 0) == Slot(p, U32_MAX)
  {}

  /** A reservation never wraps: it takes exactly the next slot of the session. */
  lemma ReserveTakesNextSlot(s: Suite, t: Transport)
    requires !Exhausted(t) && t.ivPrefix == DeriveIvPrefix(s, t.salt, t.prefixIndex)
    ensures var r := Reserve(s, t);
      && r.counter < PER_PREFIX && r.nextCounter == r.counter + 1
      && Slot(r.nextPrefixIndex, r.counter) == Slot(t.prefixIndex, t.counter)
      && r.iv == r.nextIvPrefix == DeriveIvPrefix(s, t.salt, r.nextPrefixIndex)
  {
    if t.counter == U32_MAX {
      SlotNext(t.prefixIndex);
    }
  }

  lemma SealSucceeds(s: Suite, secret: Secret, pid: u32, iv: Bytes, counter: u32, text: Bytes)
    ensures KeyOk(secret) && |iv| == IV_RANDOM_BYTES && |text| == PLAINTEXT_BYTES <==>
      Seal(s, secret, pid, iv, counter, text).Some?
  {}

  lemma EntriesExtend(s: Suite, secret: Secret, accepted: seq<Entry>, e: Entry)
    requires AllOk(s, secret, accepted)
    requires e.counter < PER_PREFIX && Slot(e.prefixIndex, e.counter) == InSession(accepted, e.session)
    requires |e.text| == PLAINTEXT_BYTES
    requires Seal(s, secret, e.pid, DeriveIvPrefix(s, e.salt, e.prefixIndex), e.counter, e.text) == Some(e.wire)
    ensures AllOk(s, secret, accepted + [e])
    ensures InSession(accepted + [e], e.session) == InSession(accepted, e.session) + 1
  {
    var all := accepted + [e];
    assert all[..|accepted|] == accepted;
    forall i | 0 <= i < |all|
      ensures EntryOk(s, secret, all, i)
    {
      if i < |accepted| {
        assert all[..i] == accepted[..i];
        assert EntryOk(s, secret, accepted, i);
      }
    }
  }

  lemma SessionsExtend(accepted: seq<Entry>, drawn: seq<Salt>, e: Entry)
    requires SessionsInOrder(accepted, drawn) && e.session + 1 == |drawn| && e.salt == drawn[e.session]
    ensures SessionsInOrder(accepted + [e], drawn)
  {}

  /** What accepting a datagram does to the session's account. */
  lemma HandAccepts(s: Suite, r: Run, text: Bytes, pid: u32, net: Net)
    requires !Exhausted(r.t) && r.t.ivPrefix == DeriveIvPrefix(s, r.t.salt, r.t.prefixIndex)
    ensures var b := Hand(s, r.t, text, pid, net, false);
      var r' := AfterSend(r, b, text, pid, net);
      && r'.session == r.session && r'.drawn == r.drawn && r'.t.salt == r.t.salt && r'.t.secret == r.t.secret
      && r'.t.ivPrefix == DeriveIvPrefix(s, r'.t.salt, r'.t.prefixIndex)
      && (b.Threw? ==> r' == r)
      && (b.Accepted? ==>
            var e := Entry(r.session, r.t.salt, b.prefixIndex, b.counter, pid, text, b.wire);
            && r'.accepted == r.accepted + [e] && e.counter < PER_PREFIX
            && Slot(e.prefixIndex, e.counter) == Slot(r.t.prefixIndex, r.t.counter)
            && Slot(r'.t.prefixIndex, r'.t.counter) == Slot(r.t.prefixIndex, r.t.counter) + 1
            && Seal(s, r.t.secret, pid, DeriveIvPrefix(s, e.salt, e.prefixIndex), e.counter, text) == Some(e.wire))
  {
    ReserveTakesNextSlot(s, r.t);
  }

  /** One more datagram, in the session's next slot, keeps the nonce accounts. */
  lemma AccountExtends(s: Suite, r: Run, r': Run, e: Entry)
    requires NonceInv(s, r) && r'.accepted == r.accepted + [e]
    requires r'.session == r.session == e.session && r'.drawn == r.drawn && r'.t.salt == r.t.salt == e.salt
    requires r'.t.secret == r.t.secret && r'.t.ivPrefix == DeriveIvPrefix(s, r'.t.salt, r'.t.prefixIndex)
    requires e.counter < PER_PREFIX && |e.text| == PLAINTEXT_BYTES
    requires Slot(e.prefixIndex, e.counter) == Slot(r.t.prefixIndex, r.t.counter)
    requires Slot(r'.t.prefixIndex, r'.t.counter) == Slot(r.t.prefixIndex, r.t.counter) + 1
    requires Seal(s, r.t.secret, e.pid, DeriveIvPrefix(s, e.salt, e.prefixIndex), e.counter, e.text) == Some(e.wire)
    ensures NonceInv(s, r')
  {
    EntriesExtend(s, r.t.secret, r.accepted, e);
    SessionsExtend(r.accepted, r.drawn, e);
  }

  /** Accepting one datagram keeps the nonce accounts. */
  lemma HandKeepsNonces(s: Suite, r: Run, text: Bytes, pid: u32, net: Net)
    requires NonceInv(s, r) && |text| == PLAINTEXT_BYTES && !Exhausted(r.t)
    ensures NonceInv(s, AfterSend(r, Hand(s, r.t, text, pid, net, false), text, pid, net))
  {
    HandAccepts(s, r, text, pid, net);
    var b := Hand(s, r.t, text, pid, net, false);
    if b.Accepted? {
      AccountExtends(s, r, AfterSend(r, b, text, pid, net),
                     Entry(r.session, r.t.salt, b.prefixIndex, b.counter, pid, text, b.wire));
    }
  }

  lemma ReconnectKeepsNonces(s: Suite, r: Run, net: Net)
    requires NonceInv(s, r)
    ensures NonceInv(s, AfterReconnect(s, r, net))
  {
    UnseenSession(r.accepted, r.session + 1);
  }

  /** The nonce account reads only some of the fields. */
  lemma SameAccount(s: Suite, r: Run, r': Run)
    requires NonceInv(s, r) && r'.accepted == r.accepted && r'.session == r.session && r'.drawn == r.drawn
    requires r'.t.secret == r.t.secret && r'.t.salt == r.t.salt && r'.t.ivPrefix == r.t.ivPrefix
    requires r'.t.prefixIndex == r.t.prefixIndex && r'.t.counter == r.t.counter
    ensures NonceInv(s, r')
  {}

  /** What a send does, by the branch it takes. */
  lemma SendShape(s: Suite, r: Run, text: Bytes, pid: u32, net: Net)
    ensures var r0 := r.(t := r.t.(pendingError := None));
      var r' := AfterSend(r, Send(s, r.t, text, pid, net), text, pid, net);
      if r.t.pendingError.Some? || |text| != PLAINTEXT_BYTES || (!r.t.connected && |r.t.queue| >= PRE_CONNECT_QUEUE_LIMIT)
      then r' == r0
      else if !Exhausted(r.t) then r' == AfterSend(r0, Hand(s, r0.t, text, pid, net, false), text, pid, net)
      else if net.openFault.Some? then r' == AfterReconnect(s, r0, net)
      else var z := AfterReconnect(s, r0, net); r' == AfterSend(z, Hand(s, z.t, text, pid, net, false), text, pid, net)
  {
    var r0 := r.(t := r.t.(pendingError := None));
    if net.openFault.None? {
      RotatedSend(s, r0, text, pid, net);
    }
  }

  /** A send that rotates is a reconnect followed by a plain hand-over. */
  lemma RotatedSend(s: Suite, r: Run, text: Bytes, pid: u32, net: Net)
    requires net.openFault.None?
    ensures var fresh' := AfterReconnect(s, r, net);
      AfterSend(r, Hand(s, fresh'.t, text, pid, net, true), text, pid, net)
      == AfterSend(fresh', Hand(s, fresh'.t, text, pid, net, false), text, pid, net)
  {}

  lemma SendKeepsNonces(s: Suite, r: Run, text: Bytes, pid: u32, net: Net)
    requires NonceInv(s, r)
    ensures NonceInv(s, AfterSend(r, Send(s, r.t, text, pid, net), text, pid, net))
  {
    var r0 := r.(t := r.t.(pendingError := None));
    SendShape(s, r, text, pid, net);
    SameAccount(s, r, r0);
    if !Exhausted(r.t) {
      if |text| == PLAINTEXT_BYTES {
        HandKeepsNonces(s, r0, text, pid, net);
      }
    } else {
      ReconnectKeepsNonces(s, r0, net);
      if net.openFault.None? && |text| == PLAINTEXT_BYTES {
        HandKeepsNonces(s, AfterReconnect(s, r0, net), text, pid, net);
      }
    }
  }

  // ---- queue accounting ---------------------------------------------------

  lemma WiresExtend(accepted: seq<Entry>, e: Entry)
    ensures Wires(accepted + [e]) == Wires(accepted) + [e.wire]
  {}

  /** A rotation in mid-send leaves room: it closes a connected transport, whose queue is
      empty, or one whose queue was checked to be short. */
  lemma HandKeepsQueue(s: Suite, r: Run, text: Bytes, pid: u32, net: Net)
    requires QueueInv(r) && (r.t.connected || |r.t.queue| < PRE_CONNECT_QUEUE_LIMIT)
    ensures QueueInv(AfterSend(r, Hand(s, r.t, text, pid, net, false), text, pid, net))
  {
    var b := Hand(s, r.t, text, pid, net, false);
    if b.Accepted? {
      WiresExtend(r.accepted, Entry(r.session, r.t.salt, b.prefixIndex, b.counter, pid, text, b.wire));
    }
  }

  lemma ReconnectKeepsQueue(s: Suite, r: Run, net: Net)
    requires QueueInv(r)
    ensures QueueInv(AfterReconnect(s, r, net))
  {}

  lemma SendKeepsQueue(s: Suite, r: Run, text: Bytes, pid: u32, net: Net)
    requires QueueInv(r)
    ensures QueueInv(AfterSend(r, Send(s, r.t, text, pid, net), text, pid, net))
  {
    var r0 := r.(t := r.t.(pendingError := None));
    SendShape(s, r, text, pid, net);
    if r.t.connected || |r.t.queue| < PRE_CONNECT_QUEUE_LIMIT {
      HandKeepsQueue(s, r0, text, pid, net);
      ReconnectKeepsQueue(s, r0, net);
      HandKeepsQueue(s, AfterReconnect(s, r0, net), text, pid, net);
    }
  }

  // ---- every run ----------------------------------------------------------

  lemma ApplyKeepsInv(s: Suite, r: Run, e: Event)
    requires Lawful(s) && Inv(s, r)
    ensures Inv(s, Apply(s, r, e))
  {
    match e
    case SendCall(text, pid, net) =>
      SendKeepsNonces(s, r, text, pid, net);
      SendKeepsQueue(s, r, text, pid, net);
    case ReconnectCall(net) =>
      ReconnectKeepsNonces(s, r, net);
      ReconnectKeepsQueue(s, r, net);
    case ConnectCallback(socket) =>
      SameAccount(s, r, Apply(s, r, e));
    case ErrorCallback(socket, fault) =>
      SameAccount(s, r, Apply(s, r, e));
  }

  lemma {:induction false} RunKeepsInv(s: Suite, r: Run, events: seq<Event>)
    requires Lawful(s) && Inv(s, r)
    ensures Inv(s, Replay(s, r, events))
    decreases |events|
  {
    if events != [] {
      ApplyKeepsInv(s, r, events[0]);
      RunKeepsInv(s, Apply(s, r, events[0]), events[1..]);
    }
  }

  /** In every run of calls and callbacks, the accepted datagrams are the transmitted
      ones followed by the queue, and the frames of the current session number
      prefixIndex * (2^32 - 1) + counter. */
  lemma EveryRun(s: Suite, secret: Secret, salt: Salt, events: seq<Event>)
    requires Lawful(s) && KeyOk(secret)
    ensures Inv(s, Replay(s, Begin(s, secret, salt), events))
  {
    RunKeepsInv(s, Begin(s, secret, salt), events);
  }

  lemma {:induction false} InSessionGrows(accepted: seq<Entry>, i: nat, j: nat, session: nat)
    requires i <= j <= |accepted|
    ensures InSession(accepted[..i], session) <= InSession(accepted[..j], session)
    decreases j
  {
    if i < j {
      assert accepted[..j][..j - 1] == accepted[..j - 1];
      InSessionGrows(accepted, i, j - 1, session);
    }
  }

  /** No two accepted datagrams share a session, prefix index and counter. */
  lemma SlotsDistinct(s: Suite, r: Run, i: nat, j: nat)
    requires NonceInv(s, r) && i < j < |r.accepted|
    ensures var a, b := r.accepted[i], r.accepted[j];
      (a.session, a.prefixIndex, a.counter) != (b.session, b.prefixIndex, b.counter)
  {
    if r.accepted[i].session == r.accepted[j].session {
      SlotsRise(s, r, i, j);
    }
  }

  /** Within a session, slots are taken in the order of acceptance. */
  lemma SlotsRise(s: Suite, r: Run, i: nat, j: nat)
    requires NonceInv(s, r) && i < j < |r.accepted| && r.accepted[i].session == r.accepted[j].session
    ensures var a, b := r.accepted[i], r.accepted[j];
      && Slot(a.prefixIndex, a.counter) < Slot(b.prefixIndex, b.counter)
      && a.prefixIndex <= b.prefixIndex && (a.prefixIndex == b.prefixIndex ==> a.counter < b.counter)
  {
    var a, b := r.accepted[i], r.accepted[j];
    assert EntryOk(s, r.t.secret, r.accepted, i) && EntryOk(s, r.t.secret, r.accepted, j);
    assert r.accepted[..i + 1][..i] == r.accepted[..i];
    InSessionGrows(r.accepted, i + 1, j, a.session);
  }

  function IvOf(s: Suite, e: Entry): Bytes { DeriveIvPrefix(s, e.salt, e.prefixIndex) }

  lemma SlotBound(prefixIndex: u32, counter: u32)
    ensures Slot(prefixIndex, counter) <= PER_SESSION
    ensures Slot(prefixIndex, counter) == PER_SESSION <==> prefixIndex == U32_MAX && counter == U32_MAX
  {}

  /** A session holds 2^32 * (2^32 - 1) frames, and is rotated exactly when it is full. */
  lemma RotatesWhenFull(s: Suite, r: Run)
    requires NonceInv(s, r)
    ensures InSession(r.accepted, r.session) <= PER_SESSION
    ensures Exhausted(r.t) <==> InSession(r.accepted, r.session) == PER_SESSION
  {
    SlotBound(r.t.prefixIndex, r.t.counter);
  }

  /** No session, past or present, ever exceeds its capacity. */
  lemma {:induction false} SessionCapacity(s: Suite, r: Run, n: nat, session: nat)
    requires NonceInv(s, r) && n <= |r.accepted|
    ensures InSession(r.accepted[..n], session) <= PER_SESSION
    decreases n
  {
    if n > 0 {
      var e := r.accepted[n - 1];
      assert r.accepted[..n][..n - 1] == r.accepted[..n - 1];
      if e.session == session {
        assert EntryOk(s, r.t.secret, r.accepted, n - 1);
        SlotBound(e.prefixIndex, e.counter);
      } else {
        SessionCapacity(s, r, n - 1, session);
      }
    }
  }

  /** A call that throws accepts nothing and leaves the session as it was, whether the
      fault was pending, met while opening a socket, or met while sending. */
  lemma ThrowChangesNothing(s: Suite, r: Run, text: Bytes, pid: u32, net: Net)
    requires Lawful(s) && Inv(s, r) && Send(s, r.t, text, pid, net).Threw?
    ensures var r' := AfterSend(r, Send(s, r.t, text, pid, net), text, pid, net);
      r' == r.(t := r.t.(pendingError := None, created := r'.t.created))
  {
    if r.t.pendingError.None? && |text| == PLAINTEXT_BYTES {
      SealSucceeds(s, r.t.secret, pid, DeriveIvPrefix(s, net.salt, 0), 0, text);
    }
  }

  /** The fault a send of one frame meets: an earlier one that is waiting, a full queue, a
      full session that cannot be replaced, or the socket's. */
  function Refusal(t: Transport, net: Net): Option<Fault> {
    if t.pendingError.Some? then t.pendingError
    else if !t.connected && |t.queue| >= 64 then Some(Droppable)
    else if t.prefixIndex == 0xFFFF_FFFF && t.counter == 0xFFFF_FFFF then net.openFault
    else if t.connected then net.sendFault
    else None
  }

  /** A send throws exactly if it meets a fault or its buffer is not one frame, and throws
      the fault; a fault that is waiting comes first. */
  lemma ThrowsIff(s: Suite, t: Transport, text: Bytes, pid: u32, net: Net)
    requires KeyOk(t.secret) && |t.ivPrefix| == IV_RANDOM_BYTES && Lawful(s)
    ensures var b := Send(s, t, text, pid, net);
      var fault := if t.pendingError.None? && |text| != 32 then Some(Hard) else Refusal(t, net);
      (b.Threw? <==> fault.Some?) && (b.Threw? ==> b.fault == fault.value)
  {
    var u := if Exhausted(t) then Reconnect(s, t.(pendingError := None), net).0 else t.(pendingError := None);
    var v := Reserve(s, u);
    SealSucceeds(s, u.secret, pid, v.iv, v.counter, text);
  }

  lemma ReconnectThrows(s: Suite, r: Run, net: Net)
    requires net.openFault.Some?
    ensures AfterReconnect(s, r, net) == r.(t := r.t.(created := r.t.created + 1))
  {}

  /** Once a socket is replaced, no callback of it has any effect, ever after. */
  lemma {:induction false} RetiredForever(s: Suite, r: Run, events: seq<Event>, socket: nat, fault: Fault)
    requires QueueInv(r) && socket < r.t.created && socket != r.t.socket
    ensures var z := Replay(s, r, events);
      Apply(s, z, ConnectCallback(socket)) == z && Apply(s, z, ErrorCallback(socket, fault)) == z
    decreases |events|
  {
    if events == [] {
      assert r.transmitted + [] == r.transmitted;
    } else {
      StaysRetired(s, r, events[0], socket);
      RetiredForever(s, Apply(s, r, events[0]), events[1..], socket, fault);
    }
  }

  /** A reconnect retires the socket it replaces: none of its callbacks has any effect, ever
      after. */
  lemma ReconnectRetires(s: Suite, r: Run, net: Net, events: seq<Event>, fault: Fault)
    requires QueueInv(r) && net.openFault.None?
    ensures var z := Replay(s, AfterReconnect(s, r, net), events);
      Apply(s, z, ConnectCallback(r.t.socket)) == z && Apply(s, z, ErrorCallback(r.t.socket, fault)) == z
  {
    ReconnectKeepsQueue(s, r, net);
    RetiredForever(s, AfterReconnect(s, r, net), events, r.t.socket, fault);
  }

  lemma StaysRetired(s: Suite, r: Run, e: Event, socket: nat)
    requires QueueInv(r) && socket < r.t.created && socket != r.t.socket
    ensures var z := Apply(s, r, e); QueueInv(z) && socket < z.t.created && socket != z.t.socket
  {
    match e
    case SendCall(text, pid, net) => SendKeepsQueue(s, r, text, pid, net);
    case ReconnectCall(net) => ReconnectKeepsQueue(s, r, net);
    case ConnectCallback(_) =>
    case ErrorCallback(_, _) =>
  }

  lemma SendKeepsSecret(s: Suite, r: Run, text: Bytes, pid: u32, net: Net)
    ensures AfterSend(r, Send(s, r.t, text, pid, net), text, pid, net).t.secret == r.t.secret
  {}

  /** Every accepted datagram opens to what was sealed into it. */
  lemma EntryOpens(s: Suite, r: Run, i: nat)
    requires Lawful(s) && NonceInv(s, r) && i < |r.accepted|
    ensures Unseal(s, r.t.secret, r.accepted[i].wire) == Some(r.accepted[i].text)
  {
    var e := r.accepted[i];
    assert EntryOk(s, r.t.secret, r.accepted, i);
    match r.t.secret
    case Shared(key) => SharedRoundTrip(s, key, IvOf(s, e), e.counter, e.text);
    case Master(masterKey) => MasterRoundTrip(s, masterKey, e.pid, IvOf(s, e), e.counter, e.text);
  }
}
