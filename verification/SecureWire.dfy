/** Secure VLP datagrams: the shared-key and master-key wire layouts around an AEAD. */
module SecureWire {
  import opened Wrappers
  import opened Words

  const KEY_BYTES := 32
  const IV_RANDOM_BYTES := 8
  const PLAINTEXT_BYTES := 32
  const SECURE_SHARED_BYTES := 60
  const SECURE_MASTER_BYTES := 64

  /** The primitives: ChaCha20-Poly1305 seal and open (section 2.8 of RFC 8439; key,
      nonce, associated data, text) and HKDF-SHA256 (RFC 5869; key material, salt, info, length). */
  datatype Suite = Suite(
    seal: (Bytes, Bytes, Option<Bytes>, Bytes) -> Bytes,
    open: (Bytes, Bytes, Option<Bytes>, Bytes) -> Option<Bytes>,
    hkdf: (Bytes, Bytes, Bytes, nat) -> Bytes)

  /** All that is assumed of the primitives: lengths, and open undoes seal. */
  ghost predicate Lawful(s: Suite) {
    && (forall key, nonce, aad, text :: |s.seal(key, nonce, aad, text)| == |text| + 16)
    && (forall key, nonce, aad, text :: s.open(key, nonce, aad, s.seal(key, nonce, aad, text)) == Some(text))
    && (forall ikm, salt, info, n :: |s.hkdf(ikm, salt, info, n)| == n)
  }

  /** The assumptions are consistent. */
  lemma LawfulSuiteExists() returns (s: Suite)
    ensures Lawful(s)
  {
    s := Suite(
      (key, nonce, aad, text) => text + ToLe(0, 16),
      (key, nonce, aad, sealed) => if |sealed| < 16 then None else Some(sealed[..|sealed| - 16]),
      (ikm, salt, info, n) => ToLe(0, n));
  }

  /** "varta-agent-v1" and "varta-iv-prefix-v1", each with its terminating zero. */
  const AGENT_LABEL: Bytes := [0x76, 0x61, 0x72, 0x74, 0x61, 0x2D, 0x61, 0x67, 0x65, 0x6E, 0x74, 0x2D, 0x76, 0x31, 0]
  const IV_LABEL: Bytes :=
    [0x76, 0x61, 0x72, 0x74, 0x61, 0x2D, 0x69, 0x76, 0x2D, 0x70, 0x72, 0x65, 0x66, 0x69, 0x78, 0x2D, 0x76, 0x31, 0]

  /** What key derivation is told besides its secret. */
  function AgentInfo(agent: u32): Bytes { AGENT_LABEL + ToLe(agent, 4) }

  function IvInfo(prefixIndex: u32): Bytes { IV_LABEL + ToLe(prefixIndex, 4) }

  function DeriveAgentKey(s: Suite, master: Bytes, agent: u32): Bytes {
    s.hkdf(master, [], AgentInfo(agent), KEY_BYTES)
  }

  function DeriveIvPrefix(s: Suite, salt: Bytes, prefixIndex: u32): Bytes {
    s.hkdf(salt, [], IvInfo(prefixIndex), IV_RANDOM_BYTES)
  }

  lemma LabelledInjective(tag: Bytes, a: u32, b: u32)
    requires tag + ToLe(a, 4) == tag + ToLe(b, 4)
    ensures a == b
  {
    assert (tag + ToLe(a, 4))[|tag|..] == ToLe(a, 4) && (tag + ToLe(b, 4))[|tag|..] == ToLe(b, 4);
    Pow256Values();
    LeRoundTrip(a, 4);
    LeRoundTrip(b, 4);
  }

  /** Different agents and different prefix indices give key derivation different inputs, and
      an agent's input is never a prefix's. */
  lemma InfosDiffer(a: u32, b: u32)
    ensures AgentInfo(a) == AgentInfo(b) ==> a == b
    ensures IvInfo(a) == IvInfo(b) ==> a == b
    ensures AgentInfo(a) != IvInfo(b)
  {
    if AgentInfo(a) == AgentInfo(b) {
      LabelledInjective(AGENT_LABEL, a, b);
    }
    if IvInfo(a) == IvInfo(b) {
      LabelledInjective(IV_LABEL, a, b);
    }
    assert |AgentInfo(a)| == 19 && |IvInfo(b)| == 23;
  }

  lemma SmallLe(n: u8)
    ensures ToLe(n, 4) == [n, 0, 0, 0]
  {
    assert ToLe(0, 1) == [0] && ToLe(0, 2) == [0] + ToLe(0, 1) && ToLe(0, 3) == [0] + ToLe(0, 2);
    assert ToLe(n, 4) == [n] + ToLe(0, 3);
  }

  /** The published derivation inputs of agent 42 and of prefix 7. */
  lemma PublishedInfos()
    ensures AgentInfo(42) == [0x76, 0x61, 0x72, 0x74, 0x61, 0x2D, 0x61, 0x67, 0x65, 0x6E, 0x74, 0x2D, 0x76, 0x31, 0x00,
                              0x2A, 0x00, 0x00, 0x00]
    ensures IvInfo(7) == [0x76, 0x61, 0x72, 0x74, 0x61, 0x2D, 0x69, 0x76, 0x2D, 0x70, 0x72, 0x65, 0x66, 0x69, 0x78, 0x2D,
                          0x76, 0x31, 0x00, 0x07, 0x00, 0x00, 0x00]
  {
    SmallLe(42);
    SmallLe(7);
  }

  /** Key derivation with 8-byte output does not collide on these secrets and inputs. */
  predicate NoCollision(s: Suite, inputs: seq<(Bytes, Bytes)>) {
    forall i, j :: 0 <= i < |inputs| && 0 <= j < |inputs| ==>
      s.hkdf(inputs[i].0, [], inputs[i].1, 8) == s.hkdf(inputs[j].0, [], inputs[j].1, 8) ==> inputs[i] == inputs[j]
  }

  /** The 12-byte AEAD nonce. */
  function BuildNonce(iv: Bytes, counter: u32): Bytes {
    iv + ToLe(counter, 4)
  }

  function EncodeShared(s: Suite, key: Bytes, iv: Bytes, counter: u32, text: Bytes): Option<Bytes> {
    if |key| != KEY_BYTES || |iv| != IV_RANDOM_BYTES || |text| != PLAINTEXT_BYTES then None
    else Some(iv + ToLe(counter, 4) + s.seal(key, BuildNonce(iv, counter), None, text))
  }

  function DecodeShared(s: Suite, key: Bytes, wire: Bytes): Option<Bytes> {
    if |wire| != SECURE_SHARED_BYTES then None
    else s.open(key, BuildNonce(wire[..8], ReadCounter(wire, 8)), None, wire[12..])
  }

  function EncodeMaster(s: Suite, master: Bytes, agent: u32, iv: Bytes, counter: u32, text: Bytes): Option<Bytes> {
    if |master| != KEY_BYTES || |iv| != IV_RANDOM_BYTES || |text| != PLAINTEXT_BYTES then None
    else
      var aad := ToLe(agent, 4);
      Some(aad + iv + ToLe(counter, 4) + s.seal(DeriveAgentKey(s, master, agent), BuildNonce(iv, counter), Some(aad), text))
  }

  function DecodeMaster(s: Suite, master: Bytes, wire: Bytes): Option<Bytes> {
    if |wire| != SECURE_MASTER_BYTES then None
    else
      s.open(DeriveAgentKey(s, master, ReadCounter(wire, 0)), BuildNonce(wire[4..12], ReadCounter(wire, 12)),
             Some(wire[..4]), wire[16..])
  }

  function ReadCounter(wire: Bytes, at: nat): u32
    requires at + 4 <= |wire|
  {
    FromLeRoundTrip(wire[at..at + 4]);
    Pow256Values();
    FromLe(wire[at..at + 4])
  }

  /** Opening a shared-key datagram returns what was sealed; it is 60 bytes and its
      first twelve are the AEAD nonce. */
  lemma SharedRoundTrip(s: Suite, key: Bytes, iv: Bytes, counter: u32, text: Bytes)
    requires Lawful(s) && EncodeShared(s, key, iv, counter, text).Some?
    ensures var wire := EncodeShared(s, key, iv, counter, text).value;
      && |wire| == 60 && wire[..8] == iv && wire[8..12] == ToLe(counter, 4)
      && wire[12..] == s.seal(key, wire[..12], None, text)
      && wire[..12] == BuildNonce(iv, counter) && DecodeShared(s, key, wire) == Some(text)
  {
    var wire := EncodeShared(s, key, iv, counter, text).value;
    Pow256Values();
    LeRoundTrip(counter, 4);
    assert wire[..8] == iv && wire[8..12] == ToLe(counter, 4);
    assert wire[..12] == iv + ToLe(counter, 4);
    assert wire[12..] == s.seal(key, BuildNonce(iv, counter), None, text);
  }

  /** Opening a master-key datagram returns what was sealed; it is 64 bytes, names the
      agent, and carries the AEAD nonce after the name. */
  lemma MasterRoundTrip(s: Suite, master: Bytes, agent: u32, iv: Bytes, counter: u32, text: Bytes)
    requires Lawful(s) && EncodeMaster(s, master, agent, iv, counter, text).Some?
    ensures var wire := EncodeMaster(s, master, agent, iv, counter, text).value;
      && |wire| == 64 && wire[..4] == ToLe(agent, 4) && wire[4..12] == iv && wire[12..16] == ToLe(counter, 4)
      && wire[16..] == s.seal(s.hkdf(master, [], AgentInfo(agent), 32), wire[4..16], Some(wire[..4]), text)
      && ReadCounter(wire, 0) == agent && wire[4..16] == BuildNonce(iv, counter)
      && DecodeMaster(s, master, wire) == Some(text)
  {
    var wire := EncodeMaster(s, master, agent, iv, counter, text).value;
    Pow256Values();
    LeRoundTrip(counter, 4);
    LeRoundTrip(agent, 4);
    assert wire[..4] == ToLe(agent, 4) && wire[0..4] == wire[..4];
    assert wire[4..12] == iv && wire[12..16] == ToLe(counter, 4);
    assert wire[4..16] == BuildNonce(iv, counter);
    assert wire[16..] == s.seal(DeriveAgentKey(s, master, agent), BuildNonce(iv, counter), Some(wire[..4]), text);
  }

  /** The nonce layout loses nothing. */
  lemma NonceInjective(iv: Bytes, counter: u32, iv': Bytes, counter': u32)
    requires |iv| == |iv'| && BuildNonce(iv, counter) == BuildNonce(iv', counter')
    ensures iv == iv' && counter == counter'
  {
    var n, n' := BuildNonce(iv, counter), BuildNonce(iv', counter');
    assert iv == n[..|iv|] && iv' == n'[..|iv|];
    assert ToLe(counter, 4) == n[|iv|..] && ToLe(counter', 4) == n'[|iv|..];
    Pow256Values();
    LeRoundTrip(counter, 4);
    LeRoundTrip(counter', 4);
  }
}
