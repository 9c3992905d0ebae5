/** Reflected 32-bit cyclic redundancy checks with all-ones initial value and output
    mask, for every generator: the polynomial definition, the shift register that
    computes it, and the corruptions it cannot miss.  A 32-bit register is its bits,
    bit i at index i. */
module CrcTheory {
  import opened Words
  import opened Gf2

  type Word = w: Poly | |w| == 32 witness Zeros(32)

  // ---- the definition ----------------------------------------------------

  /** Multiply by x^32 and add `init` to the 32 leading coefficients. */
  function Augment(m: Poly, init: Word): (p: Poly)
    ensures |p| == |m| + 32
  {
    Xor(m + Zeros(32), init + Zeros(|m|))
  }

  /** The checksum by polynomial division: the complement of the remainder of the
      complemented message times x^32, highest power in the lowest bit. */
  function CrcBits(g: Generator, m: Bytes): Word {
    Xor(Remainder(g, Augment(MessageBits(m), Ones(32))), Ones(32))
  }

  function WordValue(w: Word): (n: u32)
    ensures ToBits(n, 32) == w
  {
    FromBitsRoundTrip(w);
    Pow2Values();
    FromBits(w)
  }

  lemma WordValueInjective(a: Word, b: Word)
    requires WordValue(a) == WordValue(b)
    ensures a == b
  {}

  // ---- the register ------------------------------------------------------

  function ShiftRight(c: Word, n: nat): Word
    requires n <= 32
  {
    c[n..] + Zeros(n)
  }

  /** One bit of the reflected register update. */
  function Step(g: Generator, c: Word): Word {
    if c[0] then Xor(ShiftRight(c, 1), g) else ShiftRight(c, 1)
  }

  function Steps(g: Generator, c: Word, n: nat): Word
    decreases n, c
  {
    if n == 0 then c else Steps(g, Step(g, c), n - 1)
  }

  /** A bit string in the low end of a word. */
  function Widen(p: Poly): Word
    requires |p| <= 32
  {
    p + Zeros(32 - |p|)
  }

  /** The register after shifting in `bits` one at a time. */
  function Register(g: Generator, c: Word, bits: Poly): Word
    decreases |bits|
  {
    if bits == [] then c else Register(g, Step(g, Xor(c, Widen(bits[..1]))), bits[1..])
  }

  lemma StepLinear(g: Generator, a: Word, b: Word)
    ensures Step(g, Xor(a, b)) == Xor(Step(g, a), Step(g, b))
  {}

  lemma {:induction false} StepsLinear(g: Generator, a: Word, b: Word, n: nat)
    ensures Steps(g, Xor(a, b), n) == Xor(Steps(g, a, n), Steps(g, b, n))
    decreases n
  {
    if n > 0 {
      StepLinear(g, a, b);
      StepsLinear(g, Step(g, a), Step(g, b), n - 1);
    }
  }

  /** The register is the running remainder: shifting bits in is long division. */
  lemma {:induction false} RegisterIsRemainder(g: Generator, c: Word, bits: Poly)
    ensures Remainder(g, Augment(bits, c)) == Register(g, c, bits)
    decreases |bits|
  {
    if bits == [] {
      assert Augment(bits, c) == c;
    } else {
      DivideBit(g, c, bits);
      RegisterIsRemainder(g, Step(g, Xor(c, Widen(bits[..1]))), bits[1..]);
    }
  }

  lemma DivideBit(g: Generator, c: Word, bits: Poly)
    requires bits != []
    ensures DivStep(g, Augment(bits, c)) == Augment(bits[1..], Step(g, Xor(c, Widen(bits[..1]))))
  {
    var p, z := Augment(bits, c), Xor(c, Widen(bits[..1]));
    assert p[0] == z[0];
    assert p[1..] == Augment(bits[1..], ShiftRight(z, 1)) by {
      assert forall i :: 0 <= i < |p| - 1 ==> p[1..][i] == Augment(bits[1..], ShiftRight(z, 1))[i];
    }
    AugmentXor(bits[1..], ShiftRight(z, 1), g);
  }

  lemma AugmentXor(m: Poly, a: Word, b: Word)
    ensures Xor(Augment(m, a), b + Zeros(|m|)) == Augment(m, Xor(a, b))
  {}

  /** While only zero bits leave the low end, a step is a plain shift. */
  lemma {:induction false} StepsShift(g: Generator, c: Word, n: nat)
    requires n <= 32 && forall i :: 0 <= i < n ==> !c[i]
    ensures Steps(g, c, n) == ShiftRight(c, n)
    decreases n
  {
    if n > 0 {
      StepsShift(g, ShiftRight(c, 1), n - 1);
    } else {
      assert ShiftRight(c, 0) == c;
    }
  }

  /** Up to 32 message bits can be added to the register at once. */
  lemma {:induction false} Absorb(g: Generator, c: Word, bits: Poly)
    requires |bits| <= 32
    ensures Register(g, c, bits) == Steps(g, Xor(c, Widen(bits)), |bits|)
    decreases |bits|
  {
    if bits == [] {
      assert Xor(c, Widen(bits)) == c;
    } else {
      var z, rest := Xor(c, Widen(bits[..1])), bits[1..];
      var up: Word := [false] + Widen(rest)[..31];
      assert Xor(c, Widen(bits)) == Xor(z, up);
      StepLinear(g, z, up);
      assert Step(g, up) == Widen(rest);
      Absorb(g, Step(g, z), rest);
    }
  }

  lemma {:induction false} RegisterConcat(g: Generator, c: Word, a: Poly, b: Poly)
    ensures Register(g, c, a + b) == Register(g, Register(g, c, a), b)
    decreases |a|
  {
    if a == [] {
      assert a + b == b;
    } else {
      assert (a + b)[1..] == a[1..] + b && (a + b)[..1] == a[..1];
      RegisterConcat(g, Step(g, Xor(c, Widen(a[..1]))), a[1..], b);
    }
  }

  /** A block of bit steps is one table entry added to the shifted register. */
  lemma BlockStep(g: Generator, c: Word, b: Poly)
    requires |b| <= 32
    ensures Register(g, c, b) == Xor(Steps(g, Widen(Xor(c[..|b|], b)), |b|), ShiftRight(c, |b|))
  {
    var n := |b|;
    var low, high := Widen(Xor(c[..n], b)), Zeros(n) + c[n..];
    Absorb(g, c, b);
    SplitBlock(c, b);
    StepsLinear(g, low, high, n);
    StepsShift(g, high, n);
    assert ShiftRight(high, n) == ShiftRight(c, n);
  }

  lemma SplitBlock(c: Word, b: Poly)
    requires |b| <= 32
    ensures Xor(c, Widen(b)) == Xor(Widen(Xor(c[..|b|], b)), Zeros(|b|) + c[|b|..])
  {}

  // ---- what a checksum detects -------------------------------------------

  /** The bits in which two messages differ. */
  function Difference(a: Bytes, b: Bytes): (d: Poly)
    requires |a| == |b|
    ensures |d| == 8 * |a|
  {
    Xor(MessageBits(a), MessageBits(b))
  }

  lemma XorZero(a: Poly, b: Poly)
    requires |a| == |b|
    ensures IsZero(Xor(a, b)) <==> a == b
  {}

  lemma DifferenceZero(a: Bytes, b: Bytes)
    requires |a| == |b|
    ensures IsZero(Difference(a, b)) <==> a == b
  {
    XorZero(MessageBits(a), MessageBits(b));
    if MessageBits(a) == MessageBits(b) {
      MessageBitsInjective(a, b);
    }
  }

  lemma XorMask(a: Poly, b: Poly, mask: Poly)
    requires |a| == |b| == |mask|
    ensures Xor(Xor(a, mask), Xor(b, mask)) == Xor(a, b)
  {}

  /** The checksums of two messages of equal length differ by the remainder of
      their difference times x^32: the checksum is affine. */
  lemma CrcDifference(g: Generator, a: Bytes, b: Bytes)
    requires |a| == |b|
    ensures Xor(CrcBits(g, a), CrcBits(g, b)) == Remainder(g, Difference(a, b) + Zeros(32))
  {
    var x, y := Augment(MessageBits(a), Ones(32)), Augment(MessageBits(b), Ones(32));
    AugmentDifference(MessageBits(a), MessageBits(b), Ones(32));
    RemainderLinear(g, x, y);
    XorMask(Remainder(g, x), Remainder(g, y), Ones(32));
  }

  lemma AugmentDifference(a: Poly, b: Poly, init: Word)
    requires |a| == |b|
    ensures Xor(Augment(a, init), Augment(b, init)) == Xor(a, b) + Zeros(32)
  {}

  /** Two different messages of any equal length whose differing bits lie within 32
      consecutive bits never share a checksum. */
  lemma BurstDetected(g: Generator, a: Bytes, b: Bytes, k: nat)
    requires |a| == |b| && a != b && IsBurst(Difference(a, b), k)
    ensures CrcBits(g, a) != CrcBits(g, b)
  {
    var d := Difference(a, b);
    if CrcBits(g, a) == CrcBits(g, b) {
      CrcDifference(g, a, b);
      XorZero(CrcBits(g, a), CrcBits(g, b));
      if k <= |d| {
        BurstNonzero(g, d + Zeros(32), k);
        assert forall i :: 0 <= i < |d| ==> d[i] == (d + Zeros(32))[i];
      }
      DifferenceZero(a, b);
    }
  }

  /** With an even number of generator terms, an odd number of differing bits is
      detected wherever they are. */
  lemma OddDetected(g: Generator, a: Bytes, b: Bytes)
    requires Odd(g) && |a| == |b| && Odd(Difference(a, b))
    ensures CrcBits(g, a) != CrcBits(g, b)
  {
    var d := Difference(a, b) + Zeros(32);
    if CrcBits(g, a) == CrcBits(g, b) {
      CrcDifference(g, a, b);
      XorZero(CrcBits(g, a), CrcBits(g, b));
      OddConcat(Difference(a, b), Zeros(32));
      OddZeros(32);
      RemainderParity(g, d);
      ZeroIsZeros(Remainder(g, d));
    }
  }

  // ---- messages that carry their own checksum ----------------------------

  /** The last four bytes hold, lowest first, the checksum of what comes before. */
  predicate Sealed(g: Generator, m: Bytes) {
    |m| >= 4 && MessageBits(m[|m| - 4..]) == CrcBits(g, m[..|m| - 4])
  }

  /** What division leaves of a message and its trailer taken together. */
  function Residue(g: Generator, m: Bytes): Word
    requires |m| >= 4
  {
    Remainder(g, Xor(MessageBits(m), Ones(32) + Zeros(8 * |m| - 32)))
  }

  /** The trailer reaches the residue unchanged. */
  lemma ResidueSplits(g: Generator, m: Bytes)
    requires |m| >= 4
    ensures Residue(g, m) == Xor(Xor(CrcBits(g, m[..|m| - 4]), Ones(32)), MessageBits(m[|m| - 4..]))
  {
    SplitTrailer(m);
    ResidueOfParts(g, MessageBits(m[..|m| - 4]), MessageBits(m[|m| - 4..]));
    Uncomplemented(g, m[..|m| - 4]);
  }

  lemma SplitTrailer(m: Bytes)
    requires |m| >= 4
    ensures MessageBits(m) == MessageBits(m[..|m| - 4]) + MessageBits(m[|m| - 4..])
  {
    assert m == m[..|m| - 4] + m[|m| - 4..];
    MessageBitsConcat(m[..|m| - 4], m[|m| - 4..]);
  }

  lemma Uncomplemented(g: Generator, m: Bytes)
    ensures Xor(CrcBits(g, m), Ones(32)) == Remainder(g, Augment(MessageBits(m), Ones(32)))
  {
    XorTwice(Remainder(g, Augment(MessageBits(m), Ones(32))), Ones(32));
  }

  lemma ResidueOfParts(g: Generator, p: Poly, t: Word)
    ensures Remainder(g, Xor(p + t, Ones(32) + Zeros(|p|))) == Xor(Remainder(g, Augment(p, Ones(32))), t)
  {
    AppendTrailer(p, t);
    RemainderLinear(g, Augment(p, Ones(32)), Zeros(|p|) + t);
    RemainderSkipsZeros(g, |p|, t);
  }

  lemma AppendTrailer(p: Poly, t: Word)
    ensures Xor(p + t, Ones(32) + Zeros(|p|)) == Xor(Augment(p, Ones(32)), Zeros(|p|) + t)
  {}

  lemma XorTwice(a: Poly, b: Poly)
    requires |a| == |b|
    ensures Xor(Xor(a, b), b) == a
  {}

  /** A trailer is right exactly when the residue is all ones, so trailer bytes are
      protected like the others. */
  lemma SealedResidue(g: Generator, m: Bytes)
    requires |m| >= 4
    ensures Sealed(g, m) <==> Residue(g, m) == Ones(32)
  {
    ResidueSplits(g, m);
    var c, t, ones := CrcBits(g, m[..|m| - 4]), MessageBits(m[|m| - 4..]), Ones(32);
    if Residue(g, m) == ones {
      assert forall i :: 0 <= i < 32 ==> Xor(Xor(c, ones), t)[i];
      assert c == t;
    }
    assert Xor(Xor(c, ones), c) == ones;
  }

  lemma SealedDifference(g: Generator, x: Bytes, y: Bytes)
    requires |x| == |y| && Sealed(g, x) && Sealed(g, y)
    ensures IsZero(Remainder(g, Difference(x, y)))
  {
    SealedResidue(g, x);
    SealedResidue(g, y);
    var mask := Ones(32) + Zeros(8 * |x| - 32);
    XorMask(MessageBits(x), MessageBits(y), mask);
    RemainderLinear(g, Xor(MessageBits(x), mask), Xor(MessageBits(y), mask));
    XorZero(Ones(32), Ones(32));
  }

  /** Corrupting up to 32 consecutive bits of a sealed message, trailer included,
      always breaks the seal. */
  lemma SealedBurstDetected(g: Generator, x: Bytes, y: Bytes, k: nat)
    requires Sealed(g, x) && |x| == |y| && x != y && IsBurst(Difference(x, y), k)
    ensures !Sealed(g, y)
  {
    if Sealed(g, y) {
      SealedDifference(g, x, y);
      var d := Difference(x, y);
      BurstNonzero(g, d, if k + 32 <= |d| then k else |d| - 32);
      DifferenceZero(x, y);
    }
  }

  /** Flipping an odd number of bits of a sealed message always breaks the seal. */
  lemma SealedOddDetected(g: Generator, x: Bytes, y: Bytes)
    requires Odd(g) && Sealed(g, x) && |x| == |y| && Odd(Difference(x, y))
    ensures !Sealed(g, y)
  {
    if Sealed(g, y) {
      SealedDifference(g, x, y);
      RemainderParity(g, Difference(x, y));
      ZeroIsZeros(Remainder(g, Difference(x, y)));
      OddZeros(32);
    }
  }

  /** Four consecutive bytes are 32 consecutive bits. */
  lemma WindowIsBurst(x: Bytes, y: Bytes, j: nat)
    requires |x| == |y|
    requires forall i :: 0 <= i < |x| && !(j <= i < j + 4) ==> x[i] == y[i]
    ensures IsBurst(Difference(x, y), 8 * j)
  {
    forall i | 0 <= i < 8 * |x| && !(8 * j <= i < 8 * j + 32)
      ensures !Difference(x, y)[i]
    {
      MessageBitAt(x, i);
      MessageBitAt(y, i);
      assert !(j <= i / 8 < j + 4);
    }
  }

  lemma {:induction false} MessageBitAt(m: Bytes, i: nat)
    requires i < 8 * |m|
    ensures MessageBits(m)[i] == ToBits(m[i / 8], 8)[i % 8]
  {
    var rest := MessageBits(m[1..]);
    if i < 8 {
      assert MessageBits(m)[i] == ToBits(m[0], 8)[i];
    } else {
      var j := i - 8;
      assert MessageBits(m)[i] == rest[j];
      MessageBitAt(m[1..], j);
      assert j / 8 == i / 8 - 1 && j % 8 == i % 8;
    }
  }
}
