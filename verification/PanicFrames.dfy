/** Terminal frames of a panic hook: a claimed timestamp, then a claimed counter, then
    a sealed frame. */
module PanicFrames {
  import opened Wrappers
  import opened Words
  import opened VlpFrame
  import opened SecureWire
  import C = PanicClaims

  /** The Rust counter is 64 bits wide and frames past 2^32 are dropped; the Go counter
      is 32 bits wide, wraps, and is advanced under a lock. */
  function Width(f: C.Flavour): nat { if f == C.Rust then U64_MAX + 1 else U32_MAX + 1 }

  /** The fetch-add, in the counter's width. */
  function Bump(f: C.Flavour, counter: nat): nat { if counter + 1 == Width(f) then 0 else counter + 1 }

  datatype PanicFrame = PanicFrame(grant: nat, timestamp: u64, counter: u32)

  /** One installation.  `fetched` lists, in fetch order, the grants whose hook has
      claimed a counter. */
  datatype Hook = Hook(claims: C.State, counter: nat, fetched: seq<nat>, frames: seq<PanicFrame>)

  datatype Step = Claim(t: C.Step) | FetchAdd(grant: nat)

  const INSTALLED: Hook := Hook(C.INIT, 0, [], [])

  predicate Enabled(h: Hook, t: Step) {
    match t
    case Claim(c) => C.Enabled(h.claims, c)
    case FetchAdd(g) => g < |h.claims.grants| && g !in h.fetched
  }

  function After(f: C.Flavour, h: Hook, t: Step): Hook
    requires Enabled(h, t)
  {
    match t
    case Claim(c) => h.(claims := C.After(f, h.claims, c))
    case FetchAdd(g) =>
      var h' := h.(counter := Bump(f, h.counter), fetched := h.fetched + [g]);
      if h.counter <= U32_MAX
      then h'.(frames := h.frames + [PanicFrame(g, h.claims.grants[g].value, h.counter)])
      else h'
  }

  predicate IsRun(f: C.Flavour, h: Hook, steps: seq<Step>)
    decreases |steps|
  {
    steps == [] || (Enabled(h, steps[0]) && IsRun(f, After(f, h, steps[0]), steps[1..]))
  }

  function Final(f: C.Flavour, h: Hook, steps: seq<Step>): Hook
    requires IsRun(f, h, steps)
    decreases |steps|
  {
    if steps == [] then h else Final(f, After(f, h, steps[0]), steps[1..])
  }

  predicate FrameOk(h: Hook, p: PanicFrame) {
    p.grant in h.fetched && p.grant < |h.claims.grants| && p.timestamp == h.claims.grants[p.grant].value
  }

  /** Every frame comes from a grant of its own. */
  predicate OwnGrants(h: Hook) {
    && (forall i :: 0 <= i < |h.frames| ==> FrameOk(h, h.frames[i]))
    && (forall i, j :: 0 <= i < j < |h.frames| ==> h.frames[i].grant != h.frames[j].grant)
  }

  /** Until it wraps, the counter numbers the fetches. */
  predicate Numbered(f: C.Flavour, h: Hook) {
    && h.counter < Width(f)
    && (|h.fetched| <= Width(f) ==>
          && h.counter == (if |h.fetched| < Width(f) then |h.fetched| else 0)
          && (forall i :: 0 <= i < |h.frames| ==> h.frames[i].counter < |h.fetched|)
          && (forall i, j :: 0 <= i < j < |h.frames| ==> h.frames[i].counter < h.frames[j].counter))
  }

  predicate Inv(f: C.Flavour, h: Hook) {
    C.Inv(f, h.claims) && OwnGrants(h) && Numbered(f, h)
  }

  lemma ClaimKeepsGrants(f: C.Flavour, h: Hook, c: C.Step)
    requires OwnGrants(h) && C.Enabled(h.claims, c)
    ensures OwnGrants(After(f, h, Claim(c)))
  {}

  lemma FetchKeepsGrants(f: C.Flavour, h: Hook, g: nat)
    requires OwnGrants(h) && Enabled(h, FetchAdd(g))
    ensures OwnGrants(After(f, h, FetchAdd(g)))
  {}

  lemma FetchKeepsNumbers(f: C.Flavour, h: Hook, g: nat)
    requires Numbered(f, h) && Enabled(h, FetchAdd(g))
    ensures Numbered(f, After(f, h, FetchAdd(g)))
  {}

  lemma AfterKeepsInv(f: C.Flavour, h: Hook, t: Step)
    requires Inv(f, h) && Enabled(h, t)
    ensures Inv(f, After(f, h, t))
  {
    match t
    case Claim(c) =>
      C.AfterKeepsInv(f, h.claims, c);
      ClaimKeepsGrants(f, h, c);
    case FetchAdd(g) =>
      FetchKeepsGrants(f, h, g);
      FetchKeepsNumbers(f, h, g);
  }

  lemma {:induction false} RunKeepsInv(f: C.Flavour, h: Hook, steps: seq<Step>)
    requires Inv(f, h) && IsRun(f, h, steps)
    ensures Inv(f, Final(f, h, steps))
    decreases |steps|
  {
    if steps != [] {
      AfterKeepsInv(f, h, steps[0]);
      RunKeepsInv(f, After(f, h, steps[0]), steps[1..]);
    }
  }

  /** In every interleaving of claims and fetches, no two secure panic frames of an
      installation share a timestamp, and, until the counter has come full circle, none
      share a counter either. */
  lemma FramesDistinct(f: C.Flavour, steps: seq<Step>, i: nat, j: nat)
    requires IsRun(f, INSTALLED, steps) && i <= j < |Final(f, INSTALLED, steps).frames|
    ensures var h := Final(f, INSTALLED, steps);
      && 1 <= h.frames[i].timestamp <= C.LIMIT && 1 <= h.frames[j].timestamp <= C.LIMIT
      && (i < j ==> h.frames[i].timestamp != h.frames[j].timestamp)
      && (i < j && |h.fetched| <= Width(f) ==> h.frames[i].counter != h.frames[j].counter)
  {
    RunKeepsInv(f, INSTALLED, steps);
    var h := Final(f, INSTALLED, steps);
    var a, b, g := h.frames[i], h.frames[j], h.claims.grants;
    assert FrameOk(h, a) && FrameOk(h, b);
    if a.grant < b.grant {
      C.GrantsRise(g, a.grant, b.grant);
    } else if b.grant < a.grant {
      C.GrantsRise(g, b.grant, a.grant);
    }
    assert C.Follows(g, a.grant) && C.Follows(g, b.grant);
  }

  /** Until the counter wraps, frame i is made of the i-th fetched grant and counter i; past
      2^32 none is made. */
  predicate Built(f: C.Flavour, h: Hook) {
    |h.fetched| <= Width(f) ==>
      && |h.frames| == Min(|h.fetched|, 0x1_0000_0000)
      && forall i :: 0 <= i < |h.frames| ==>
           h.fetched[i] < |h.claims.grants| && h.frames[i] == PanicFrame(h.fetched[i], h.claims.grants[h.fetched[i]].value, i)
  }

  lemma ClaimKeepsBuilt(f: C.Flavour, h: Hook, c: C.Step)
    requires Built(f, h) && C.Enabled(h.claims, c)
    ensures Built(f, After(f, h, Claim(c)))
  {}

  lemma FetchKeepsBuilt(f: C.Flavour, h: Hook, g: nat)
    requires Built(f, h) && Numbered(f, h) && Enabled(h, FetchAdd(g))
    ensures Built(f, After(f, h, FetchAdd(g)))
  {}

  lemma {:induction false} RunKeepsBuilt(f: C.Flavour, h: Hook, steps: seq<Step>)
    requires Inv(f, h) && Built(f, h) && IsRun(f, h, steps)
    ensures Built(f, Final(f, h, steps))
    decreases |steps|
  {
    if steps != [] {
      AfterKeepsInv(f, h, steps[0]);
      match steps[0] {
        case Claim(c) => ClaimKeepsBuilt(f, h, c);
        case FetchAdd(g) => FetchKeepsBuilt(f, h, g);
      }
      RunKeepsBuilt(f, After(f, h, steps[0]), steps[1..]);
    }
  }

  /** In every interleaving, until the counter wraps: the first 2^32 fetches each make a frame,
      with the fetched grant's timestamp and the fetch's number, and later ones make none. */
  lemma FetchesBuild(f: C.Flavour, steps: seq<Step>)
    requires IsRun(f, INSTALLED, steps)
    ensures var h := Final(f, INSTALLED, steps);
      |h.fetched| <= Width(f) ==>
        && |h.frames| == Min(|h.fetched|, 0x1_0000_0000)
        && forall i :: 0 <= i < |h.frames| ==>
             && h.fetched[i] < |h.claims.grants|
             && h.frames[i].timestamp == h.claims.grants[h.fetched[i]].value && h.frames[i].counter == i
  {
    RunKeepsBuilt(f, INSTALLED, steps);
  }

  // ---- the sealed frame ---------------------------------------------------

  /** "varta-panic-iv-v1" with its terminating zero. */
  const PANIC_LABEL: Bytes :=
    [0x76, 0x61, 0x72, 0x74, 0x61, 0x2D, 0x70, 0x61, 0x6E, 0x69, 0x63, 0x2D, 0x69, 0x76, 0x2D, 0x76, 0x31, 0]

  function PanicInfo(pid: u32, timestamp: u64, counter: u32): Bytes {
    PANIC_LABEL + ToLe(pid, 4) + ToLe(timestamp, 8) + ToLe(counter, 4)
  }

  function PanicIv(s: Suite, salt: Bytes, pid: u32, timestamp: u64, counter: u32): Bytes {
    s.hkdf(salt, [], PanicInfo(pid, timestamp, counter), IV_RANDOM_BYTES)
  }

  function Terminal(pid: u32, timestamp: u64): Frame { NewFrame(Critical, pid, timestamp, NONCE_TERMINAL, 0) }

  function BuildSecurePanicFrame(s: Suite, key: Bytes, salt: Bytes, pid: u32, timestamp: u64, counter: u32): Option<Bytes> {
    EncodeShared(s, key, PanicIv(s, salt, pid, timestamp, counter), counter, Encode(Terminal(pid, timestamp)))
  }

  /** A receiver with the key gets the terminal frame back, for every granted timestamp
      and every process id that is not reserved. */
  lemma PanicFrameArrives(s: Suite, key: Bytes, salt: Bytes, pid: u32, timestamp: u64, counter: u32)
    requires Lawful(s) && |key| == KEY_BYTES && timestamp <= C.LIMIT
    ensures var wire := BuildSecurePanicFrame(s, key, salt, pid, timestamp, counter);
      && wire.Some? && |wire.value| == SECURE_SHARED_BYTES
      && wire.value[..8] == s.hkdf(salt, [], PanicInfo(pid, timestamp, counter), 8)
      && wire.value[8..12] == ToLe(counter, 4)
      && DecodeShared(s, key, wire.value) == Some(Encode(Terminal(pid, timestamp)))
      && Terminal(pid, timestamp) == Frame(0x56, 0x41, 2, Critical, pid, timestamp, 0xFFFF_FFFF_FFFF_FFFF, 0)
      && (Decode(Encode(Terminal(pid, timestamp))) == Success(Terminal(pid, timestamp)) <==> pid >= 2)
  {
    SharedRoundTrip(s, key, PanicIv(s, salt, pid, timestamp, counter), counter, Encode(Terminal(pid, timestamp)));
    DecodeOfEncode(Terminal(pid, timestamp));
  }

  /** The input of key derivation: the label, then who panicked, when, and which panic it was. */
  lemma PanicInfoLayout(pid: u32, timestamp: u64, counter: u32)
    ensures var info := PanicInfo(pid, timestamp, counter);
      && |info| == 34 && info[..18] == PANIC_LABEL
      && FromLe(info[18..22]) == pid && FromLe(info[22..30]) == timestamp && FromLe(info[30..]) == counter
  {
    var info := PanicInfo(pid, timestamp, counter);
    assert info[18..22] == ToLe(pid, 4) && info[22..30] == ToLe(timestamp, 8) && info[30..] == ToLe(counter, 4);
    Pow256Values();
    LeRoundTrip(pid, 4);
    LeRoundTrip(timestamp, 8);
    LeRoundTrip(counter, 4);
  }

  /** Different process ids, timestamps or counters give key derivation different inputs. */
  lemma PanicInfoInjective(pid: u32, ts: u64, ctr: u32, pid': u32, ts': u64, ctr': u32)
    requires PanicInfo(pid, ts, ctr) == PanicInfo(pid', ts', ctr')
    ensures pid == pid' && ts == ts' && ctr == ctr'
  {
    PanicInfoLayout(pid, ts, ctr);
    PanicInfoLayout(pid', ts', ctr');
  }
}
