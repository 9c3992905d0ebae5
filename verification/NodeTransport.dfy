/** The Node client's secure transport object. */
module NodeTransport {
  import opened Wrappers
  import opened Words
  import opened SecureWire
  import S = SecureTransport

  class SecureUdpTransport {
    const suite: Suite
    const secret: S.Secret
    var socket: nat
    var created: nat
    var connected: bool
    var queue: seq<Bytes>
    var pendingError: Option<S.Fault>
    var salt: S.Salt
    var prefixIndex: u32
    var ivPrefix: Bytes
    var counter: u32

    function State(): S.Transport
      reads this
    {
      S.Transport(secret, socket, created, connected, queue, pendingError, salt, prefixIndex, ivPrefix, counter)
    }

    constructor (suite: Suite, secret: S.Secret, salt: S.Salt)
      ensures this.suite == suite && State() == S.Open(suite, secret, salt)
    {
      this.suite, this.secret := suite, secret;
      this.salt, prefixIndex, counter := salt, 0, 0;
      ivPrefix := DeriveIvPrefix(suite, salt, 0);
      socket, created := 0, 1;
      connected, queue, pendingError := false, [], None;
    }

    /** The public factories refuse keys that are not 32 bytes, and pass on a fault met while
        opening the socket. */
    static method Connect(suite: Suite, secret: S.Secret, net: S.Net) returns (r: Result<SecureUdpTransport, S.Fault>)
      ensures r.Failure? <==> !S.KeyOk(secret) || net.openFault.Some?
      ensures r.Failure? ==> r.error == if S.KeyOk(secret) then net.openFault.value else S.Hard
      ensures r.Success? ==>
        fresh(r.value) && r.value.suite == suite && r.value.State() == S.Open(suite, secret, net.salt)
    {
      if !S.KeyOk(secret) {
        return Failure(S.Hard);
      }
      if net.openFault.Some? {
        return Failure(net.openFault.value);
      }
      var t := new SecureUdpTransport(suite, secret, net.salt);
      r := Success(t);
    }

    /** Build the replacement first; install it only if nothing threw. */
    method Reconnect(net: S.Net) returns (fault: Option<S.Fault>)
      modifies this
      ensures (State(), fault) == S.Reconnect(suite, old(State()), net)
    {
      var newIvPrefix := DeriveIvPrefix(suite, net.salt, 0);
      var newSocket := created;
      created := created + 1;
      if net.openFault.Some? {
        return net.openFault;
      }
      socket := newSocket;
      connected := false;
      pendingError := None;
      salt := net.salt;
      prefixIndex := 0;
      counter := 0;
      ivPrefix := newIvPrefix;
      return None;
    }

    method PrepareNonce(net: S.Net) returns (r: S.Reservation, fault: Option<S.Fault>)
      modifies this
      ensures !S.Exhausted(old(State())) ==> State() == old(State()) && fault.None?
      ensures S.Exhausted(old(State())) ==> (State(), fault) == S.Reconnect(suite, old(State()), net)
      ensures fault.None? ==> r == S.Reserve(suite, State())
    {
      fault := None;
      if counter == U32_MAX && prefixIndex == U32_MAX {
        fault := Reconnect(net);
      }
      var nextPrefixIndex := prefixIndex;
      var nextIvPrefix := ivPrefix;
      var c := counter;
      if c == U32_MAX {
        nextPrefixIndex := (nextPrefixIndex + 1) % S.U32_MODULUS;
        nextIvPrefix := DeriveIvPrefix(suite, salt, nextPrefixIndex);
        c := 0;
      }
      r := S.Reservation(nextIvPrefix, c, nextPrefixIndex, nextIvPrefix, (c + 1) % S.U32_MODULUS);
    }

    method CommitNonce(r: S.Reservation)
      modifies this
      ensures State() == S.Commit(old(State()), r)
    {
      prefixIndex := r.nextPrefixIndex;
      ivPrefix := r.nextIvPrefix;
      counter := r.nextCounter;
    }

    /** Send one frame: throw, or queue it before the socket connects, or transmit it. */
    method Send(text: Bytes, pid: u32, net: S.Net) returns (fault: Option<S.Fault>, transmitted: seq<Bytes>)
      modifies this
      ensures var b := S.Send(suite, old(State()), text, pid, net);
        && State() == b.transport
        && fault == (if b.Threw? then Some(b.fault) else None)
        && transmitted == (if b.Accepted? && b.transport.connected then [b.wire] else [])
    {
      transmitted := [];
      var queued := pendingError;
      pendingError := None;
      if queued.Some? {
        return queued, transmitted;
      }
      if |text| != PLAINTEXT_BYTES {
        return Some(S.Hard), transmitted;
      }
      if !connected && |queue| >= S.PRE_CONNECT_QUEUE_LIMIT {
        return Some(S.Droppable), transmitted;
      }
      var r;
      r, fault := PrepareNonce(net);
      if fault.Some? {
        return;
      }
      var wire := S.Seal(suite, secret, pid, r.iv, r.counter, text);
      if wire.None? {
        return Some(S.Hard), transmitted;
      }
      if !connected {
        queue := queue + [wire.value];
        CommitNonce(r);
        return None, transmitted;
      }
      if net.sendFault.Some? {
        return net.sendFault, transmitted;
      }
      transmitted := [wire.value];
      CommitNonce(r);
      return None, transmitted;
    }

    /** The connect callback of socket `s` drains the queue in order. */
    method OnConnect(s: nat) returns (flushed: seq<Bytes>)
      modifies this
      ensures (State(), flushed) == S.OnConnect(old(State()), s)
    {
      flushed := [];
      if socket != s {
        return;
      }
      connected := true;
      while |queue| > 0
        invariant State() == old(State()).(connected := true, queue := queue)
        invariant flushed + queue == old(queue)
        decreases |queue|
      {
        var wire := queue[0];
        queue := queue[1..];
        flushed := flushed + [wire];
      }
      assert queue == [] && flushed + [] == flushed;
    }

    method OnError(s: nat, fault: S.Fault)
      modifies this
      ensures State() == S.OnError(old(State()), s, fault)
    {
      if socket == s {
        pendingError := Some(fault);
      }
    }
  }
}
