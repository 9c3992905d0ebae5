/** CRC-32C a hexadecimal digit at a time: the register as a row of eight digits. */
module CrcDigits {
  import opened Words
  import opened Gf2
  import opened CrcTheory
  import opened Crc32c

  /** A hexadecimal digit by its bits, lowest first. */
  datatype Nib = Nib(b0: bool, b1: bool, b2: bool, b3: bool)

  const ZERO := Nib(false, false, false, false)

  function Weight(b: bool, n: nat): nat { if b then n else 0 }

  function NibValue(d: Nib): (n: nat)
    ensures n < 16
  {
    Weight(d.b0, 1) + Weight(d.b1, 2) + Weight(d.b2, 4) + Weight(d.b3, 8)
  }

  function ToNib(n: nat): Nib { Nib(n % 2 == 1, n / 2 % 2 == 1, n / 4 % 2 == 1, n / 8 % 2 == 1) }

  function NibBits(d: Nib): (p: Poly)
    ensures |p| == 4
  {
    [d.b0, d.b1, d.b2, d.b3]
  }

  /** Digits, lowest first. */
  type Row = ds: seq<Nib> | |ds| == 8 witness [ZERO, ZERO, ZERO, ZERO, ZERO, ZERO, ZERO, ZERO]

  /** The bits of a row of digits. */
  function HexBits(ds: seq<Nib>): (p: Poly)
    ensures |p| == 4 * |ds|
    decreases |ds|, ds
  {
    if ds == [] then [] else NibBits(ds[0]) + HexBits(ds[1..])
  }

  function HexValue(ds: seq<Nib>): nat
    decreases |ds|, ds
  {
    if ds == [] then 0 else NibValue(ds[0]) + 16 * HexValue(ds[1..])
  }

  function XorNib(a: Nib, b: Nib): Nib { Nib(a.b0 != b.b0, a.b1 != b.b1, a.b2 != b.b2, a.b3 != b.b3) }

  function XorRow(a: seq<Nib>, b: seq<Nib>): (c: seq<Nib>)
    requires |a| == |b|
    ensures |c| == |a| && forall i :: 0 <= i < |c| ==> c[i] == XorNib(a[i], b[i])
  {
    seq(|a|, i requires 0 <= i < |a| => XorNib(a[i], b[i]))
  }

  function Same(n: nat, d: Nib): (ds: seq<Nib>)
    ensures |ds| == n && forall i :: 0 <= i < n ==> ds[i] == d
  {
    seq(n, _ => d)
  }

  // ---- digits and bits ----------------------------------------------------

  lemma XorConcat(a: Poly, b: Poly, c: Poly, d: Poly)
    requires |a| == |c| && |b| == |d|
    ensures Xor(a + b, c + d) == Xor(a, c) + Xor(b, d)
  {}

  lemma XorNibBits(a: Nib, b: Nib)
    ensures NibBits(XorNib(a, b)) == Xor(NibBits(a), NibBits(b))
  {}

  lemma {:induction false} XorBits(a: seq<Nib>, b: seq<Nib>)
    requires |a| == |b|
    ensures HexBits(XorRow(a, b)) == Xor(HexBits(a), HexBits(b))
    decreases |a|
  {
    if a != [] {
      XorBits(a[1..], b[1..]);
      assert XorRow(a, b)[1..] == XorRow(a[1..], b[1..]);
      XorNibBits(a[0], b[0]);
      XorConcat(NibBits(a[0]), HexBits(a[1..]), NibBits(b[0]), HexBits(b[1..]));
    }
  }

  lemma HexHead(d: Nib, ds: seq<Nib>)
    ensures HexBits([d] + ds) == NibBits(d) + HexBits(ds)
  {
    assert ([d] + ds)[1..] == ds;
  }

  lemma {:induction false} HexConcat(a: seq<Nib>, b: seq<Nib>)
    ensures HexBits(a + b) == HexBits(a) + HexBits(b)
    decreases |a|
  {
    if a == [] {
      assert a + b == b;
    } else {
      assert (a + b)[1..] == a[1..] + b;
      HexConcat(a[1..], b);
    }
  }

  lemma {:induction false} SameBits(n: nat, b: bool)
    ensures HexBits(Same(n, Nib(b, b, b, b))) == if b then Ones(4 * n) else Zeros(4 * n)
    decreases n
  {
    if n > 0 {
      SameBits(n - 1, b);
      assert Same(n, Nib(b, b, b, b))[1..] == Same(n - 1, Nib(b, b, b, b));
    }
  }

  function Shifted(c: Row): Row { c[1..] + Same(1, ZERO) }

  /** Dropping a digit is a shift by four bits. */
  lemma ShiftDigit(c: Row)
    ensures ShiftRight(HexBits(c), 4) == HexBits(Shifted(c)) && HexBits(c)[..4] == NibBits(c[0])
  {
    HexConcat(c[1..], Same(1, ZERO));
    SameBits(1, false);
    assert HexBits(c)[4..] == HexBits(c[1..]);
  }

  function Low(d: Nib): Row { [d] + Same(7, ZERO) }

  lemma WidenDigit(d: Nib)
    ensures Widen(NibBits(d)) == HexBits(Low(d))
  {
    HexHead(d, Same(7, ZERO));
    SameBits(7, false);
  }

  // ---- four bit steps of a digit ------------------------------------------

  /** Each digit of `zs` is that of `ds` one bit further down. */
  predicate Halved(ds: seq<Nib>, zs: seq<Nib>) {
    |ds| == |zs| && forall i {:trigger HalvedAt(ds, zs, i)} :: 0 <= i < |zs| ==> HalvedAt(ds, zs, i)
  }

  predicate HalvedAt(ds: seq<Nib>, zs: seq<Nib>, i: nat)
    requires i < |ds| == |zs|
  {
    zs[i] == Nib(ds[i].b1, ds[i].b2, ds[i].b3, i + 1 < |ds| && ds[i + 1].b0)
  }

  lemma HalvedTail(ds: seq<Nib>, zs: seq<Nib>)
    requires Halved(ds, zs) && |ds| > 1
    ensures Halved(ds[1..], zs[1..])
  {
    forall i | 0 <= i < |ds| - 1
      ensures HalvedAt(ds[1..], zs[1..], i)
    {
      assert HalvedAt(ds, zs, i + 1);
    }
  }

  lemma {:induction false} HalvedBits(ds: seq<Nib>, zs: seq<Nib>)
    requires Halved(ds, zs) && ds != []
    ensures HexBits(zs) == HexBits(ds)[1..] + [false] && HexBits(ds)[0] == ds[0].b0
    decreases |ds|
  {
    var rest := HexBits(ds[1..]);
    assert HalvedAt(ds, zs, 0);
    if |ds| == 1 {
      assert ds[1..] == [] && zs[1..] == [];
      assert NibBits(zs[0]) == NibBits(ds[0])[1..] + [false];
    } else {
      HalvedTail(ds, zs);
      HalvedBits(ds[1..], zs[1..]);
      assert NibBits(zs[0]) == NibBits(ds[0])[1..] + [rest[0]];
      ShiftJoin(NibBits(ds[0]), rest);
    }
  }

  lemma ShiftJoin(a: Poly, b: Poly)
    requires a != [] && b != []
    ensures (a[1..] + [b[0]]) + (b[1..] + [false]) == (a + b)[1..] + [false]
  {}

  /** A step on a word without its lowest bit is a shift. */
  lemma EvenStep(g: Generator, w: Row, z: Row)
    requires !w[0].b0 && Halved(w, z)
    ensures Step(g, HexBits(w)) == HexBits(z)
  {
    HalvedBits(w, z);
    assert Zeros(1) == [false];
  }

  lemma FirstStep(g: Generator)
    ensures Step(g, HexBits(Low(Nib(true, false, false, false)))) == g
  {
    var d := Nib(true, false, false, false);
    WidenDigit(d);
    var c := Widen(NibBits(d));
    assert c[0] && ShiftRight(c, 1) == Zeros(32);
    assert Xor(Zeros(32), g) == g;
  }

  lemma FourSteps(g: Generator, a: Word, b: Word, c: Word, d: Word, e: Word)
    requires Step(g, a) == b && Step(g, b) == c && Step(g, c) == d && Step(g, d) == e
    ensures Steps(g, a, 4) == e
  {
    assert Steps(g, e, 0) == e && Steps(g, d, 1) == e && Steps(g, c, 2) == e && Steps(g, b, 3) == e;
  }

  /** The generator in digits, and its first three shifts, which lose no bit. */
  datatype Basis = Basis(r8: Row, r4: Row, r2: Row, r1: Row)

  predicate IsBasis(g: Generator, b: Basis) {
    && g == HexBits(b.r8)
    && Halved(b.r8, b.r4) && Halved(b.r4, b.r2) && Halved(b.r2, b.r1)
    && !b.r8[0].b0 && !b.r4[0].b0 && !b.r2[0].b0
  }

  const ONE := Nib(true, false, false, false)
  const TWO := Nib(false, true, false, false)
  const FOUR := Nib(false, false, true, false)
  const EIGHT := Nib(false, false, false, true)

  lemma HalvedLow(d: Nib, e: Nib)
    requires !d.b0 && e == Nib(d.b1, d.b2, d.b3, false)
    ensures Halved(Low(d), Low(e))
  {
    forall i | 0 <= i < 8
      ensures HalvedAt(Low(d), Low(e), i)
    {}
  }

  /** The four steps of each single bit: shift it out, bring the generator in, shift that. */
  lemma BasisSteps(g: Generator, b: Basis)
    requires IsBasis(g, b)
    ensures Steps(g, HexBits(Low(EIGHT)), 4) == HexBits(b.r8) && Steps(g, HexBits(Low(FOUR)), 4) == HexBits(b.r4)
    ensures Steps(g, HexBits(Low(TWO)), 4) == HexBits(b.r2) && Steps(g, HexBits(Low(ONE)), 4) == HexBits(b.r1)
  {
    var w8, w4, w2, w1 := HexBits(Low(EIGHT)), HexBits(Low(FOUR)), HexBits(Low(TWO)), HexBits(Low(ONE));
    var g8, g4, g2, g1 := HexBits(b.r8), HexBits(b.r4), HexBits(b.r2), HexBits(b.r1);
    LowSteps(g);
    EvenStep(g, b.r8, b.r4);
    EvenStep(g, b.r4, b.r2);
    EvenStep(g, b.r2, b.r1);
    FourSteps(g, w8, w4, w2, w1, g8);
    FourSteps(g, w4, w2, w1, g8, g4);
    FourSteps(g, w2, w1, g8, g4, g2);
    FourSteps(g, w1, g8, g4, g2, g1);
  }

  lemma LowSteps(g: Generator)
    ensures Step(g, HexBits(Low(EIGHT))) == HexBits(Low(FOUR)) && Step(g, HexBits(Low(FOUR))) == HexBits(Low(TWO))
    ensures Step(g, HexBits(Low(TWO))) == HexBits(Low(ONE)) && Step(g, HexBits(Low(ONE))) == g
  {
    HalvedLow(EIGHT, FOUR);
    HalvedLow(FOUR, TWO);
    HalvedLow(TWO, ONE);
    EvenStep(g, Low(EIGHT), Low(FOUR));
    EvenStep(g, Low(FOUR), Low(TWO));
    EvenStep(g, Low(TWO), Low(ONE));
    FirstStep(g);
  }

  function Pick(b: bool, r: Row): Row { if b then r else Same(8, ZERO) }

  /** What four bit steps make of a digit in the low end of the register. */
  function TableRow(b: Basis, d: Nib): Row {
    XorRow(XorRow(Pick(d.b0, b.r1), Pick(d.b1, b.r2)), XorRow(Pick(d.b2, b.r4), Pick(d.b3, b.r8)))
  }

  /** Four steps on the digits `a` leave the digits `x`. */
  predicate FourOn(g: Generator, a: Row, x: Row) { Steps(g, HexBits(a), 4) == HexBits(x) }

  lemma FourOnSum(g: Generator, a: Row, b: Row, x: Row, y: Row)
    requires FourOn(g, a, x) && FourOn(g, b, y)
    ensures FourOn(g, XorRow(a, b), XorRow(x, y))
  {
    XorBits(a, b);
    XorBits(x, y);
    StepsLinear(g, HexBits(a), HexBits(b), 4);
  }

  lemma FourOnPick(g: Generator, b: bool, a: Row, x: Row)
    requires FourOn(g, a, x)
    ensures FourOn(g, Pick(b, a), Pick(b, x))
  {
    if !b {
      FourOnSum(g, a, a, x, x);
      assert XorRow(a, a) == Same(8, ZERO) && XorRow(x, x) == Same(8, ZERO);
    }
  }

  lemma TableRowIsSteps(g: Generator, b: Basis, d: Nib)
    requires IsBasis(g, b)
    ensures FourOn(g, Low(d), TableRow(b, d))
  {
    BasisSteps(g, b);
    RowFromBasis(g, b, d);
  }

  lemma RowFromBasis(g: Generator, b: Basis, d: Nib)
    requires FourOn(g, Low(ONE), b.r1) && FourOn(g, Low(TWO), b.r2)
    requires FourOn(g, Low(FOUR), b.r4) && FourOn(g, Low(EIGHT), b.r8)
    ensures FourOn(g, Low(d), TableRow(b, d))
  {
    var a1, a2, a4, a8 := Pick(d.b0, Low(ONE)), Pick(d.b1, Low(TWO)), Pick(d.b2, Low(FOUR)), Pick(d.b3, Low(EIGHT));
    var x1, x2, x4, x8 := Pick(d.b0, b.r1), Pick(d.b1, b.r2), Pick(d.b2, b.r4), Pick(d.b3, b.r8);
    FourOnPick(g, d.b0, Low(ONE), b.r1);
    FourOnPick(g, d.b1, Low(TWO), b.r2);
    FourOnPick(g, d.b2, Low(FOUR), b.r4);
    FourOnPick(g, d.b3, Low(EIGHT), b.r8);
    FourOnSum(g, a1, a2, x1, x2);
    FourOnSum(g, a4, a8, x4, x8);
    FourOnSum(g, XorRow(a1, a2), XorRow(a4, a8), XorRow(x1, x2), XorRow(x4, x8));
    LowSum(d);
  }

  lemma LowSum(d: Nib)
    ensures XorRow(XorRow(Pick(d.b0, Low(ONE)), Pick(d.b1, Low(TWO))), XorRow(Pick(d.b2, Low(FOUR)), Pick(d.b3, Low(EIGHT))))
      == Low(d)
  {}

  // ---- feeding ------------------------------------------------------------

  /** One digit into the register. */
  function Feed(b: Basis, c: Row, n: Nib): Row { XorRow(TableRow(b, XorNib(c[0], n)), Shifted(c)) }

  lemma FeedIsRegister(g: Generator, b: Basis, c: Row, n: Nib)
    requires IsBasis(g, b)
    ensures Register(g, HexBits(c), NibBits(n)) == HexBits(Feed(b, c, n))
  {
    var d := XorNib(c[0], n);
    BlockStep(g, HexBits(c), NibBits(n));
    ShiftDigit(c);
    XorNibBits(c[0], n);
    WidenDigit(d);
    TableRowIsSteps(g, b, d);
    XorBits(TableRow(b, d), Shifted(c));
  }

  lemma ToNibBits(n: nat)
    requires n < 16
    ensures ToBits(n, 4) == NibBits(ToNib(n)) && NibValue(ToNib(n)) == n
  {
    assert n / 2 / 2 == n / 4 && n / 4 / 2 == n / 8;
    assert ToBits(n / 8, 1) == [n / 8 % 2 == 1];
    assert ToBits(n / 4, 2) == [n / 4 % 2 == 1] + ToBits(n / 8, 1);
    assert ToBits(n / 2, 3) == [n / 2 % 2 == 1] + ToBits(n / 4, 2);
    assert ToBits(n, 4) == [n % 2 == 1] + ToBits(n / 2, 3);
  }

  lemma ByteBits(b: u8)
    ensures ToBits(b, 8) == NibBits(ToNib(b % 16)) + NibBits(ToNib(b / 16))
  {
    ToNibBits(b % 16);
    ToNibBits(b / 16);
    assert Pow2(4) == 16;
    ToBitsSplit(b % 16, b / 16, 4, 4);
  }

  function FeedByte(b: Basis, c: Row, x: u8): Row { Feed(b, Feed(b, c, ToNib(x % 16)), ToNib(x / 16)) }

  /** A message into the register. */
  function FeedAll(b: Basis, c: Row, m: Bytes): Row
    decreases |m|, m
  {
    if m == [] then c else FeedByte(b, FeedAll(b, c, m[..|m| - 1]), m[|m| - 1])
  }

  lemma FeedByteIsRegister(g: Generator, b: Basis, c: Row, x: u8)
    requires IsBasis(g, b)
    ensures Register(g, HexBits(c), ToBits(x, 8)) == HexBits(FeedByte(b, c, x))
  {
    var lo, hi := ToNib(x % 16), ToNib(x / 16);
    ByteBits(x);
    RegisterConcat(g, HexBits(c), NibBits(lo), NibBits(hi));
    FeedIsRegister(g, b, c, lo);
    FeedIsRegister(g, b, Feed(b, c, lo), hi);
  }

  /** The register is fed the digits of the message. */
  lemma {:induction false} FeedAllIsRegister(g: Generator, b: Basis, c: Row, m: Bytes)
    requires IsBasis(g, b)
    ensures Register(g, HexBits(c), MessageBits(m)) == HexBits(FeedAll(b, c, m))
    decreases |m|
  {
    if m != [] {
      var before, x := m[..|m| - 1], m[|m| - 1];
      FeedAllIsRegister(g, b, c, before);
      FeedAllLast(b, c, m);
      OneMoreByte(g, b, c, before, x, FeedAll(b, c, before));
      Rejoin(m);
    }
  }

  lemma FeedAllLast(b: Basis, c: Row, m: Bytes)
    requires m != []
    ensures FeedAll(b, c, m) == FeedByte(b, FeedAll(b, c, m[..|m| - 1]), m[|m| - 1])
  {}

  lemma Rejoin(m: Bytes)
    requires m != []
    ensures m[..|m| - 1] + [m[|m| - 1]] == m
  {}

  lemma OneMoreByte(g: Generator, b: Basis, c: Row, m: Bytes, x: u8, z: Row)
    requires IsBasis(g, b) && Register(g, HexBits(c), MessageBits(m)) == HexBits(z)
    ensures Register(g, HexBits(c), MessageBits(m + [x])) == HexBits(FeedByte(b, z, x))
  {
    LastByteBits(m, x);
    RegisterConcat(g, HexBits(c), MessageBits(m), ToBits(x, 8));
    FeedByteIsRegister(g, b, z, x);
  }

  lemma LastByteBits(m: Bytes, x: u8)
    ensures MessageBits(m + [x]) == MessageBits(m) + ToBits(x, 8)
  {
    MessageBitsConcat(m, [x]);
    assert [x][1..] == [] && MessageBits([x]) == ToBits(x, 8) + MessageBits([]);
  }

  // ---- the value ----------------------------------------------------------

  lemma PowFour(n: nat)
    ensures Pow2(4 + n) == 16 * Pow2(n)
  {
    assert Pow2(1 + n) == 2 * Pow2(n);
    assert Pow2(2 + n) == 2 * Pow2(1 + n);
    assert Pow2(3 + n) == 2 * Pow2(2 + n);
  }

  lemma NibValueBits(d: Nib)
    ensures ToBits(NibValue(d), 4) == NibBits(d)
  {
    ToNibBits(NibValue(d));
    assert ToNib(NibValue(d)) == d;
  }

  lemma {:induction false} HexValueBits(ds: seq<Nib>)
    ensures ToBits(HexValue(ds), 4 * |ds|) == HexBits(ds) && HexValue(ds) < Pow2(4 * |ds|)
    decreases |ds|
  {
    if ds != [] {
      HexValueBits(ds[1..]);
      NibValueBits(ds[0]);
      PowFour(4 * |ds| - 4);
      assert Pow2(4) == 16;
      ToBitsSplit(NibValue(ds[0]), HexValue(ds[1..]), 4, 4 * |ds| - 4);
    }
  }

  const START: Row := Same(8, Nib(true, true, true, true))

  lemma CrcBitsInDigits(g: Generator, b: Basis, m: Bytes)
    requires IsBasis(g, b)
    ensures CrcBits(g, m) == HexBits(XorRow(FeedAll(b, START, m), START))
  {
    SameBits(8, true);
    RegisterIsRemainder(g, Ones(32), MessageBits(m));
    FeedAllIsRegister(g, b, START, m);
    XorBits(FeedAll(b, START, m), START);
  }

  /** The checksum by digits. */
  lemma CrcInDigits(b: Basis, m: Bytes)
    requires IsBasis(CASTAGNOLI, b)
    ensures Crc(m) == HexValue(XorRow(FeedAll(b, START, m), START))
  {
    var row := XorRow(FeedAll(b, START, m), START);
    CrcBitsInDigits(CASTAGNOLI, b, m);
    HexValueBits(row);
    Pow2Values();
    BitsRoundTrip(HexValue(row), 32);
    BitsRoundTrip(Crc(m), 32);
  }
}
