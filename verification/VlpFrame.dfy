/** The 32-byte Varta Lifeline Protocol frame: encoder, decoder and their laws. */
module VlpFrame {
  import opened Wrappers
  import opened Words
  import opened Gf2
  import opened CrcTheory
  import opened Crc32c

  const MAGIC: Bytes := [0x56, 0x41]
  const VERSION: u8 := 0x02
  const NONCE_TERMINAL: u64 := U64_MAX

  datatype Status = Ok | Degraded | Critical | Stall

  datatype Frame = Frame(
    magic0: u8, magic1: u8, version: u8, status: Status,
    pid: u32, timestamp: u64, nonce: u64, payload: u32)

  datatype DecodeError =
    | BadMagic
    | BadVersion
    | BadCrc(expected: u32, actual: u32)
    | BadStatus(byte: u8)
    | StallOnWire
    | BadPid(pid: u32)
    | BadTimestamp(timestamp: u64)
    | BadNonce(nonce: u64, status: Status)

  type Wire = b: Bytes | |b| == 32 witness ToLe(0, 32)

  function NewFrame(status: Status, pid: u32, timestamp: u64, nonce: u64, payload: u32): Frame {
    Frame(MAGIC[0], MAGIC[1], VERSION, status, pid, timestamp, nonce, payload)
  }

  function StatusByte(s: Status): u8 {
    match s
    case Ok => 0
    case Degraded => 1
    case Critical => 2
    case Stall => 3
  }

  function TryStatus(byte: u8): (r: Result<Status, DecodeError>)
    ensures r.Success? ==> StatusByte(r.value) == byte
    ensures r.Failure? <==> byte > 3
  {
    match byte
    case 0 => Success(Ok)
    case 1 => Success(Degraded)
    case 2 => Success(Critical)
    case 3 => Success(Stall)
    case _ => Failure(BadStatus(byte))
  }

  // ---- layout ------------------------------------------------------------

  function Header(f: Frame): (b: Bytes)
    ensures |b| == 4
  {
    [f.magic0, f.magic1, f.version, StatusByte(f.status)]
  }

  /** The 28 bytes under the checksum. */
  function Body(f: Frame): (b: Bytes)
    ensures |b| == 28
  {
    Header(f) + ToLe(f.pid, 4) + ToLe(f.timestamp, 8) + ToLe(f.nonce, 8) + ToLe(f.payload, 4)
  }

  function Encode(f: Frame): Wire {
    Body(f) + ToLe(Crc(Body(f)), 4)
  }

  function Decode(b: Wire): Result<Frame, DecodeError> {
    if b[0] != MAGIC[0] || b[1] != MAGIC[1] then Failure(BadMagic)
    else if b[2] != VERSION then Failure(BadVersion)
    else
      var stored, computed := ReadU32(b, 28), Crc(b[..28]);
      if stored != computed then Failure(BadCrc(computed, stored)) else DecodeFields(b)
  }

  /** What follows the checksum test. */
  function DecodeFields(b: Wire): Result<Frame, DecodeError> {
    var status := TryStatus(b[3]);
    if status.Failure? then Failure(status.error)
    else if status.value == Stall then Failure(StallOnWire)
    else
      var pid, timestamp, nonce, payload := ReadU32(b, 4), ReadU64(b, 8), ReadU64(b, 16), ReadU32(b, 24);
      if pid == 0 || pid == 1 then Failure(BadPid(pid))
      else if timestamp == U64_MAX then Failure(BadTimestamp(timestamp))
      else if nonce == NONCE_TERMINAL && status.value != Critical then Failure(BadNonce(nonce, status.value))
      else Success(Frame(b[0], b[1], b[2], status.value, pid, timestamp, nonce, payload))
  }

  function ReadU32(b: Bytes, at: nat): (n: u32)
    requires at + 4 <= |b|
    ensures ToLe(n, 4) == b[at..at + 4]
  {
    FromLeRoundTrip(b[at..at + 4]);
    Pow256Values();
    FromLe(b[at..at + 4])
  }

  function ReadU64(b: Bytes, at: nat): (n: u64)
    requires at + 8 <= |b|
    ensures ToLe(n, 8) == b[at..at + 8]
  {
    FromLeRoundTrip(b[at..at + 8]);
    Pow256Values();
    FromLe(b[at..at + 8])
  }

  // ---- the in-place encoder ----------------------------------------------

  /** Overwrite `out[at..]` with `bytes`. */
  method CopyInto(out: array<u8>, at: nat, bytes: Bytes)
    requires at + |bytes| <= out.Length
    modifies out
    ensures out[..] == old(out[..at]) + bytes + old(out[at + |bytes|..])
  {
    for i := 0 to |bytes|
      invariant out[..at] == old(out[..at])
      invariant out[at..at + i] == bytes[..i]
      invariant out[at + |bytes|..] == old(out[at + |bytes|..])
    {
      out[at + i] := bytes[i];
    }
  }

  /** Serialise `f` into the caller's buffer, whatever it held before. */
  method EncodeInto(f: Frame, out: array<u8>)
    requires out.Length == 32
    modifies out
    ensures out[..] == Encode(f)
  {
    CopyInto(out, 0, [f.magic0, f.magic1]);
    CopyInto(out, 2, [f.version]);
    CopyInto(out, 3, [StatusByte(f.status)]);
    assert out[..4] == [f.magic0, f.magic1, f.version, StatusByte(f.status)];
    CopyInto(out, 4, ToLe(f.pid, 4));
    CopyInto(out, 8, ToLe(f.timestamp, 8));
    CopyInto(out, 16, ToLe(f.nonce, 8));
    CopyInto(out, 24, ToLe(f.payload, 4));
    assert out[..28] == Body(f);
    var crc := Compute(out[..28]);
    CopyInto(out, 28, ToLe(crc, 4));
  }

  // ---- laws ---------------------------------------------------------------

  /** The frames a receiver accepts. */
  predicate WireValid(f: Frame) {
    && f.magic0 == 0x56 && f.magic1 == 0x41 && f.version == 2
    && f.status != Stall
    && f.pid >= 2
    && f.timestamp != 0xFFFF_FFFF_FFFF_FFFF
    && (f.nonce == 0xFFFF_FFFF_FFFF_FFFF ==> f.status == Critical)
  }

  lemma EncodedFields(f: Frame)
    ensures var b := Encode(f);
      && b[0] == f.magic0 && b[1] == f.magic1 && b[2] == f.version && b[3] == StatusByte(f.status)
      && ReadU32(b, 4) == f.pid && ReadU64(b, 8) == f.timestamp && ReadU64(b, 16) == f.nonce
      && ReadU32(b, 24) == f.payload && ReadU32(b, 28) == Crc(b[..28])
  {
    var b := Encode(f);
    Pow256Values();
    LeRoundTrip(f.pid, 4);
    LeRoundTrip(f.timestamp, 8);
    LeRoundTrip(f.nonce, 8);
    LeRoundTrip(f.payload, 4);
    LeRoundTrip(Crc(Body(f)), 4);
    assert b[..28] == Body(f);
    assert b[4..8] == ToLe(f.pid, 4);
    assert b[8..16] == ToLe(f.timestamp, 8);
    assert b[16..24] == ToLe(f.nonce, 8);
    assert b[24..28] == ToLe(f.payload, 4);
    assert b[28..32] == ToLe(Crc(Body(f)), 4);
  }

  lemma ReadsTrailer(b: Wire)
    ensures ReadU32(b, 28) == Le32(b, 28)
  {
    FourBytes(b, 28);
  }

  lemma ReadsLe(b: Wire)
    ensures ReadU32(b, 4) == Le32(b, 4) && ReadU64(b, 8) == Le64(b, 8) && ReadU64(b, 16) == Le64(b, 16)
    ensures ReadU32(b, 24) == Le32(b, 24) && ReadU32(b, 28) == Le32(b, 28)
  {
    FourBytes(b, 4);
    EightBytes(b, 8);
    EightBytes(b, 16);
    FourBytes(b, 24);
    ReadsTrailer(b);
  }

  /** Where each field stands on the wire, and as which number. */
  lemma WireLayout(f: Frame)
    ensures var b := Encode(f);
      && b[0] == f.magic0 && b[1] == f.magic1 && b[2] == f.version
      && b[3] == (if f.status == Ok then 0 else if f.status == Degraded then 1 else if f.status == Critical then 2 else 3)
      && Le32(b, 4) == f.pid && Le64(b, 8) == f.timestamp && Le64(b, 16) == f.nonce && Le32(b, 24) == f.payload
      && Le32(b, 28) == Crc(b[..28])
  {
    EncodedFields(f);
    ReadsLe(Encode(f));
  }

  /** A new frame is of this protocol and version. */
  lemma NewFrameHeader(status: Status, pid: u32, timestamp: u64, nonce: u64, payload: u32)
    ensures Encode(NewFrame(status, pid, timestamp, nonce, payload))[..3] == [0x56, 0x41, 0x02]
    ensures NewFrame(status, pid, timestamp, nonce, payload) == Frame(0x56, 0x41, 0x02, status, pid, timestamp, nonce, payload)
  {
    EncodedFields(NewFrame(status, pid, timestamp, nonce, payload));
  }

  /** Decoding undoes encoding exactly for the wire-valid frames. */
  lemma DecodeOfEncode(f: Frame)
    ensures Decode(Encode(f)) == Success(f) <==> WireValid(f)
    ensures Decode(Encode(f)).Success? ==> WireValid(f)
  {
    EncodedFields(f);
  }

  /** Encoding undoes decoding: an accepted buffer is the encoding of its frame. */
  lemma EncodeOfDecode(b: Wire)
    requires Decode(b).Success?
    ensures WireValid(Decode(b).value) && Encode(Decode(b).value) == b
  {
    DecodedFields(b);
    Reencode(Decode(b).value, b);
  }

  lemma FieldsRead(b: Wire)
    requires DecodeFields(b).Success?
    ensures var f := DecodeFields(b).value;
      && f == Frame(b[0], b[1], b[2], f.status, ReadU32(b, 4), ReadU64(b, 8), ReadU64(b, 16), ReadU32(b, 24))
      && StatusByte(f.status) == b[3] && f.status != Stall && f.pid >= 2 && f.timestamp != U64_MAX
      && (f.nonce == NONCE_TERMINAL ==> f.status == Critical)
  {}

  lemma DecodedFields(b: Wire)
    requires Decode(b).Success?
    ensures var f := Decode(b).value;
      && WireValid(f) && f == Frame(b[0], b[1], b[2], f.status, ReadU32(b, 4), ReadU64(b, 8), ReadU64(b, 16), ReadU32(b, 24))
      && StatusByte(f.status) == b[3] && ReadU32(b, 28) == Crc(b[..28])
  {
    FieldsRead(b);
  }

  /** The fields of a frame, read from a buffer, determine the buffer. */
  lemma Reencode(f: Frame, b: Wire)
    requires b[0] == f.magic0 && b[1] == f.magic1 && b[2] == f.version && b[3] == StatusByte(f.status)
    requires f.pid == ReadU32(b, 4) && f.timestamp == ReadU64(b, 8) && f.nonce == ReadU64(b, 16)
    requires f.payload == ReadU32(b, 24) && ReadU32(b, 28) == Crc(b[..28])
    ensures Encode(f) == b
  {
    assert Header(f) == b[..4];
    Assemble(b, Header(f), ToLe(f.pid, 4), ToLe(f.timestamp, 8), ToLe(f.nonce, 8), ToLe(f.payload, 4));
    assert b == b[..28] + b[28..32];
  }

  lemma Assemble(b: Wire, head: Bytes, pid: Bytes, timestamp: Bytes, nonce: Bytes, payload: Bytes)
    requires head == b[..4] && pid == b[4..8] && timestamp == b[8..16] && nonce == b[16..24] && payload == b[24..28]
    ensures head + pid + timestamp + nonce + payload == b[..28]
  {}

  /** The eight validation gates in the documented order. */
  predicate Gate(n: nat, b: Wire) {
    if n == 0 then b[0] == 0x56 && b[1] == 0x41
    else if n == 1 then b[2] == 2
    else if n == 2 then Le32(b, 28) == Crc(b[..28])
    else if n == 3 then b[3] <= 3
    else if n == 4 then b[3] != 3
    else if n == 5 then Le32(b, 4) >= 2
    else if n == 6 then Le64(b, 8) < 0xFFFF_FFFF_FFFF_FFFF
    else n == 7 ==> (Le64(b, 16) < 0xFFFF_FFFF_FFFF_FFFF || b[3] == 2)
  }

  /** The gate an error reports. */
  function GateOf(e: DecodeError): nat {
    match e
    case BadMagic => 0
    case BadVersion => 1
    case BadCrc(_, _) => 2
    case BadStatus(_) => 3
    case StallOnWire => 4
    case BadPid(_) => 5
    case BadTimestamp(_) => 6
    case BadNonce(_, _) => 7
  }

  /** The offending field an error carries is the one on the wire. */
  predicate Reports(e: DecodeError, b: Wire) {
    match e
    case BadCrc(expected, actual) => expected == Crc(b[..28]) && actual == Le32(b, 28)
    case BadStatus(byte) => byte == b[3]
    case BadPid(pid) => pid == Le32(b, 4)
    case BadTimestamp(timestamp) => timestamp == Le64(b, 8)
    case BadNonce(nonce, status) => nonce == Le64(b, 16) && StatusByte(status) == b[3]
    case _ => true
  }

  /** A buffer is accepted iff every gate passes. */
  lemma AcceptedIffAllGates(b: Wire)
    ensures Decode(b).Success? <==> forall n :: 0 <= n < 8 ==> Gate(n, b)
  {
    if Decode(b).Success? {
      forall n | 0 <= n < 8
        ensures Gate(n, b)
      {
        GatePassed(b, n);
      }
    } else {
      FirstFailingGate(b);
    }
  }

  /** The same, as the decoder reads the fields. */
  predicate ReportsRead(e: DecodeError, b: Wire) {
    match e
    case BadCrc(expected, actual) => expected == Crc(b[..28]) && actual == ReadU32(b, 28)
    case BadStatus(byte) => byte == b[3]
    case BadPid(pid) => pid == ReadU32(b, 4)
    case BadTimestamp(timestamp) => timestamp == ReadU64(b, 8)
    case BadNonce(nonce, status) => nonce == ReadU64(b, 16) && StatusByte(status) == b[3]
    case _ => true
  }

  lemma FieldsReport(b: Wire)
    requires DecodeFields(b).Failure?
    ensures ReportsRead(DecodeFields(b).error, b) && GateOf(DecodeFields(b).error) >= 3
  {}

  lemma FailureReads(b: Wire)
    requires Decode(b).Failure?
    ensures ReportsRead(Decode(b).error, b)
  {
    if DecodeFields(b).Failure? {
      FieldsReport(b);
    }
  }

  lemma ReportsFields(e: DecodeError, b: Wire)
    requires ReportsRead(e, b)
    ensures Reports(e, b)
  {
    ReadsLe(b);
  }

  /** The gates, as the decoder reads the fields. */
  predicate GateRead(n: nat, b: Wire) {
    if n == 0 then b[0] == MAGIC[0] && b[1] == MAGIC[1]
    else if n == 1 then b[2] == VERSION
    else if n == 2 then ReadU32(b, 28) == Crc(b[..28])
    else if n == 3 then b[3] <= 3
    else if n == 4 then b[3] != 3
    else if n == 5 then ReadU32(b, 4) >= 2
    else if n == 6 then ReadU64(b, 8) < U64_MAX
    else n == 7 ==> (ReadU64(b, 16) < NONCE_TERMINAL || b[3] == 2)
  }

  lemma GatesAgree(n: nat, b: Wire)
    ensures GateRead(n, b) == Gate(n, b)
  {
    ReadsLe(b);
  }

  lemma FieldsGates(b: Wire, n: nat)
    requires 3 <= n < 8
    ensures DecodeFields(b).Failure? ==> !GateRead(GateOf(DecodeFields(b).error), b)
    ensures DecodeFields(b).Success? || n < GateOf(DecodeFields(b).error) ==> GateRead(n, b)
  {
    if DecodeFields(b).Failure? {
      FieldsReport(b);
    }
  }

  lemma GateFails(b: Wire)
    requires Decode(b).Failure?
    ensures !Gate(GateOf(Decode(b).error), b)
  {
    FieldsGates(b, 3);
    GatesAgree(GateOf(Decode(b).error), b);
  }

  lemma GatePassed(b: Wire, n: nat)
    requires n < 8 && (Decode(b).Success? || n < GateOf(Decode(b).error))
    ensures Gate(n, b)
  {
    if n >= 3 {
      FieldsGates(b, n);
    }
    GatesAgree(n, b);
  }

  /** A rejected buffer reports the first gate that fails, with the offending field. */
  lemma FirstFailingGate(b: Wire)
    requires Decode(b).Failure?
    ensures var e := Decode(b).error;
      !Gate(GateOf(e), b) && Reports(e, b) && forall n :: 0 <= n < GateOf(e) ==> Gate(n, b)
  {
    FailureReads(b);
    ReportsFields(Decode(b).error, b);
    GateFails(b);
    forall n | 0 <= n < GateOf(Decode(b).error)
      ensures Gate(n, b)
    {
      GatePassed(b, n);
    }
  }

  /** A frame whose checksum verifies, corrupted in any way that stays within 32
      consecutive bits, wherever they lie, or that flips an odd number of bits, is
      rejected before any field is interpreted. */
  lemma CorruptionRejected(x: Wire, y: Wire, k: nat)
    requires Gate(2, x) && x != y
    requires IsBurst(Difference(x, y), k) || Odd(Difference(x, y))
    ensures Decode(y).Failure? && GateOf(Decode(y).error) <= 2
    ensures x[..3] == y[..3] && Gate(0, x) && Gate(1, x) ==> Decode(y).error.BadCrc?
  {
    ReadsTrailer(x);
    ReadsTrailer(y);
    assert x[28..] == x[28..32] && y[28..] == y[28..32];
    SealedTrailer(x);
    SealedTrailer(y);
    if IsBurst(Difference(x, y), k) {
      SealedBurstDetected(CASTAGNOLI, x, y, k);
    } else {
      CastagnoliOdd();
      SealedOddDetected(CASTAGNOLI, x, y);
    }
    assert !Gate(2, y);
    assert x[..3][0] == x[0] && x[..3][1] == x[1] && x[..3][2] == x[2];
  }

  /** In bytes: no corruption of four consecutive bytes of an accepted frame, straddling
      payload and trailer or not, is ever accepted. */
  lemma WindowCorruptionRejected(x: Wire, y: Wire, j: nat)
    requires Decode(x).Success? && x != y
    requires forall i :: 0 <= i < 32 && !(j <= i < j + 4) ==> x[i] == y[i]
    ensures Decode(y).Failure?
  {
    WindowIsBurst(x, y, j);
    AcceptedIffAllGates(x);
    assert Gate(2, x);
    CorruptionRejected(x, y, 8 * j);
  }
}
