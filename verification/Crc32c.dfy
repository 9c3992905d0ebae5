/** CRC-32C (Castagnoli), section 12.1 of RFC 3720: the table-driven checksum of VLP frames. */
module Crc32c {
  import opened Words
  import opened Gf2
  import opened CrcTheory

  /** The four bits of a hexadecimal digit, highest first. */
  function Digit(d: nat): (p: Poly)
    ensures |p| == 4
  {
    [d / 8 % 2 == 1, d / 4 % 2 == 1, d / 2 % 2 == 1, d % 2 == 1]
  }

  /** 0x1EDC6F41, the coefficients of x^31 down to x^0.  Read from the lowest bit up
      these are the bits of the reflected form 0x82F63B78. */
  const CASTAGNOLI: Generator :=
    Digit(0x1) + (Digit(0xE) + (Digit(0xD) + (Digit(0xC) + (Digit(0x6) + (Digit(0xF) + (Digit(0x4) + Digit(0x1)))))))

  /** The checksum by polynomial division. */
  function Crc(m: Bytes): u32 {
    WordValue(CrcBits(CASTAGNOLI, m))
  }

  predicate IsTable(g: Generator, table: seq<Word>) {
    |table| == 256 && forall i :: 0 <= i < 256 ==> table[i] == Steps(g, ToBits(i, 32), 8)
  }

  /** The inner loop: `n` bit steps on a word. */
  method TableEntry(g: Generator, word: Word, n: nat) returns (c: Word)
    ensures c == Steps(g, word, n)
  {
    c := word;
    for j := 0 to n
      invariant Steps(g, c, n - j) == Steps(g, word, n)
    {
      assert Steps(g, c, n - j) == Steps(g, Step(g, c), n - (j + 1));
      c := if c[0] then Xor(ShiftRight(c, 1), g) else ShiftRight(c, 1);
    }
  }

  /** Fill the 256-entry table, one entry per input byte. */
  method BuildTable(g: Generator) returns (table: array<Word>)
    ensures fresh(table) && IsTable(g, table[..])
  {
    table := new Word[256](_ => Zeros(32));
    for i := 0 to 256
      invariant forall k :: 0 <= k < i ==> table[k] == Steps(g, ToBits(k, 32), 8)
    {
      var c := TableEntry(g, ToBits(i, 32), 8);
      table[i] := c;
    }
  }

  /** The byte-at-a-time loop computes the polynomial definition. */
  method Compute(bytes: Bytes) returns (crc: u32)
    ensures crc == Crc(bytes)
  {
    var g := CASTAGNOLI;
    var table := BuildTable(g);
    var c: Word := Ones(32);
    var i := 0;
    while i < |bytes|
      invariant 0 <= i <= |bytes|
      invariant IsTable(g, table[..])
      invariant Register(g, c, MessageBits(bytes[i..])) == Register(g, Ones(32), MessageBits(bytes))
    {
      TableByte(g, table[..], c, bytes[i]);
      var idx := FromBits(Xor(c[..8], ToBits(bytes[i], 8)));
      RegisterConcat(g, c, ToBits(bytes[i], 8), MessageBits(bytes[i..][1..]));
      assert bytes[i..][1..] == bytes[i + 1..];
      c := Xor(table[idx], ShiftRight(c, 8));
      i := i + 1;
    }
    RegisterIsRemainder(g, Ones(32), MessageBits(bytes));
    crc := WordValue(Xor(c, Ones(32)));
  }

  /** One table lookup replaces eight bit steps. */
  lemma TableByte(g: Generator, table: seq<Word>, c: Word, b: u8)
    requires IsTable(g, table)
    ensures var idx := FromBits(Xor(c[..8], ToBits(b, 8)));
      idx < 256 && Register(g, c, ToBits(b, 8)) == Xor(table[idx], ShiftRight(c, 8))
  {
    var low := Xor(c[..8], ToBits(b, 8));
    FromBitsRoundTrip(low);
    Pow2Values();
    BlockStep(g, c, ToBits(b, 8));
    WidenBits(FromBits(low));
  }

  lemma WidenBits(b: u8)
    ensures ToBits(b, 32) == Widen(ToBits(b, 8))
  {
    Pow2Values();
    MoreBits(b, 8, 24);
  }

  /** A number below 2^j has only zeros from bit `j` on. */
  lemma MoreBits(n: nat, j: nat, k: nat)
    requires n < Pow2(j)
    ensures ToBits(n, j + k) == ToBits(n, j) + Zeros(k)
  {
    ToBitsSplit(n, 0, j, k);
    ToBitsZero(k);
  }

  lemma {:induction false} ToBitsZero(n: nat)
    ensures ToBits(0, n) == Zeros(n)
  {
    if n > 0 {
      ToBitsZero(n - 1);
    }
  }

  // ---- the Castagnoli generator has 18 terms ------------------------------

  predicate OddDigit(d: nat) {
    (d / 8 % 2 == 1) != ((d / 4 % 2 == 1) != ((d / 2 % 2 == 1) != (d % 2 == 1)))
  }

  lemma OddDigitStep(d: nat, p: Poly)
    ensures Odd(Digit(d) + p) == (OddDigit(d) != Odd(p))
  {
    var q := Digit(d);
    OddConcat(q, p);
    assert q[1..][1..] == q[2..] && q[2..][1..][1..] == [];
    assert Odd(q) == (q[0] != (q[1] != Odd(q[2..])));
    assert Odd(q[2..]) == (q[2] != (q[3] != Odd([])));
  }

  lemma CastagnoliOdd()
    ensures Odd(CASTAGNOLI)
  {
    var p1 := Digit(0x1);
    var p2 := Digit(0x4) + p1;
    var p3 := Digit(0xF) + p2;
    var p4 := Digit(0x6) + p3;
    var p5 := Digit(0xC) + p4;
    var p6 := Digit(0xD) + p5;
    var p7 := Digit(0xE) + p6;
    assert p1 == p1 + [];
    OddDigitStep(0x1, []);
    OddDigitStep(0x4, p1);
    OddDigitStep(0xF, p2);
    OddDigitStep(0x6, p3);
    OddDigitStep(0xC, p4);
    OddDigitStep(0xD, p5);
    OddDigitStep(0xE, p6);
    OddDigitStep(0x1, p7);
  }

  // ---- the detection theorems for CRC-32C ---------------------------------

  /** `m` ends in the little-endian CRC-32C of the rest. */
  lemma SealedTrailer(m: Bytes)
    requires |m| >= 4
    ensures FromLe(m[|m| - 4..]) == Crc(m[..|m| - 4]) <==> Sealed(CASTAGNOLI, m)
  {
    var g, body, tail := CASTAGNOLI, m[..|m| - 4], m[|m| - 4..];
    FromLeRoundTrip(tail);
    MessageBitsOfLe(FromLe(tail), 4);
    Pow256Values();
    Pow2Values();
    BitsRoundTrip(FromLe(tail), 32);
    BitsRoundTrip(Crc(body), 32);
  }

  /** Any two messages of equal length that differ, but only within 32 consecutive
      bits or in an odd number of bits, have different checksums. */
  lemma CorruptionDetected(a: Bytes, b: Bytes, k: nat)
    requires |a| == |b| && a != b
    requires IsBurst(Difference(a, b), k) || Odd(Difference(a, b))
    ensures Crc(a) != Crc(b)
  {
    var g := CASTAGNOLI;
    if IsBurst(Difference(a, b), k) {
      BurstDetected(g, a, b, k);
    } else {
      CastagnoliOdd();
      OddDetected(g, a, b);
    }
    if Crc(a) == Crc(b) {
      WordValueInjective(CrcBits(g, a), CrcBits(g, b));
    }
  }
}
