/** Published values of CRC-32C, proved of the checksum. */
module CrcVectors {
  import opened Words
  import opened Gf2
  import opened Crc32c
  import opened CrcDigits

  const H0 := Nib(false, false, false, false)
  const H1 := Nib(true, false, false, false)
  const H2 := Nib(false, true, false, false)
  const H3 := Nib(true, true, false, false)
  const H4 := Nib(false, false, true, false)
  const H5 := Nib(true, false, true, false)
  const H6 := Nib(false, true, true, false)
  const H7 := Nib(true, true, true, false)
  const H8 := Nib(false, false, false, true)
  const H9 := Nib(true, false, false, true)
  const HA := Nib(false, true, false, true)
  const HB := Nib(true, true, false, true)
  const HC := Nib(false, false, true, true)
  const HD := Nib(true, false, true, true)
  const HE := Nib(false, true, true, true)
  const HF := Nib(true, true, true, true)

  /** A 32-bit word by its digits, lowest first. */
  datatype Reg = Reg(d0: Nib, d1: Nib, d2: Nib, d3: Nib, d4: Nib, d5: Nib, d6: Nib, d7: Nib)

  function Digits(w: Reg): Row { [w.d0, w.d1, w.d2, w.d3, w.d4, w.d5, w.d6, w.d7] }

  function XorReg(a: Reg, b: Reg): Reg {
    Reg(XorNib(a.d0, b.d0), XorNib(a.d1, b.d1), XorNib(a.d2, b.d2), XorNib(a.d3, b.d3),
        XorNib(a.d4, b.d4), XorNib(a.d5, b.d5), XorNib(a.d6, b.d6), XorNib(a.d7, b.d7))
  }

  /** 0x82F63B78 and its first three shifts. */
  const R8 := Reg(H8, H7, HB, H3, H6, HF, H2, H8)
  const R4 := Reg(HC, HB, HD, H1, HB, H7, H1, H4)
  const R2 := Reg(HE, HD, HE, H8, HD, HB, H0, H2)
  const R1 := Reg(HF, H6, H7, HC, HE, H5, H0, H1)

  const BASIS: Basis := Basis(Digits(R8), Digits(R4), Digits(R2), Digits(R1))

  /** The coefficients of the generator, from x^31 down, are the bits of 0x82F63B78 from the
      lowest up. */
  lemma GeneratorBits()
    ensures CASTAGNOLI == HexBits(Digits(R8)) && HexValue(Digits(R8)) == 0x82F6_3B78
  {
    GeneratorDigits();
    HexSpelled(R8);
    ValueSpelled(R8);
  }

  lemma GeneratorDigits()
    ensures Digit(0x1) == NibBits(H8) && Digit(0xE) == NibBits(H7) && Digit(0xD) == NibBits(HB)
    ensures Digit(0xC) == NibBits(H3) && Digit(0x6) == NibBits(H6) && Digit(0xF) == NibBits(HF)
    ensures Digit(0x4) == NibBits(H2)
  {}

  lemma HexSpelled(w: Reg)
    ensures HexBits(Digits(w)) == NibBits(w.d0) + (NibBits(w.d1) + (NibBits(w.d2) + (NibBits(w.d3) +
      (NibBits(w.d4) + (NibBits(w.d5) + (NibBits(w.d6) + NibBits(w.d7)))))))
  {
    var t7 := [w.d7];
    var t6 := [w.d6] + t7;
    var t5 := [w.d5] + t6;
    var t4 := [w.d4] + t5;
    var t3 := [w.d3] + t4;
    var t2 := [w.d2] + t3;
    var t1 := [w.d1] + t2;
    assert t7 == [w.d7] + [] && NibBits(w.d7) + [] == NibBits(w.d7);
    HexHead(w.d7, []);
    HexHead(w.d6, t7);
    HexHead(w.d5, t6);
    HexHead(w.d4, t5);
    HexHead(w.d3, t4);
    HexHead(w.d2, t3);
    HexHead(w.d1, t2);
    HexHead(w.d0, t1);
    assert Digits(w) == [w.d0] + t1;
  }

  lemma ValueHead(d: Nib, ds: seq<Nib>)
    ensures HexValue([d] + ds) == NibValue(d) + 16 * HexValue(ds)
  {
    assert ([d] + ds)[1..] == ds;
  }

  function Value(w: Reg): nat {
    NibValue(w.d0) + 16 * (NibValue(w.d1) + 16 * (NibValue(w.d2) + 16 * (NibValue(w.d3) + 16 *
      (NibValue(w.d4) + 16 * (NibValue(w.d5) + 16 * (NibValue(w.d6) + 16 * NibValue(w.d7)))))))
  }

  lemma FourSpelled(a: Nib, b: Nib, c: Nib, d: Nib, rest: seq<Nib>)
    ensures HexValue([a, b, c, d] + rest) ==
      NibValue(a) + 16 * (NibValue(b) + 16 * (NibValue(c) + 16 * (NibValue(d) + 16 * HexValue(rest))))
  {
    ValueHead(d, rest);
    ValueHead(c, [d] + rest);
    ValueHead(b, [c] + ([d] + rest));
    ValueHead(a, [b] + ([c] + ([d] + rest)));
    assert [a, b, c, d] + rest == [a] + ([b] + ([c] + ([d] + rest)));
  }

  lemma ValueSpelled(w: Reg)
    ensures HexValue(Digits(w)) == Value(w)
  {
    FourSpelled(w.d4, w.d5, w.d6, w.d7, []);
    assert [w.d4, w.d5, w.d6, w.d7] + [] == [w.d4, w.d5, w.d6, w.d7];
    FourSpelled(w.d0, w.d1, w.d2, w.d3, [w.d4, w.d5, w.d6, w.d7]);
    assert [w.d0, w.d1, w.d2, w.d3] + [w.d4, w.d5, w.d6, w.d7] == Digits(w);
  }

  lemma IsTheBasis()
    ensures IsBasis(CASTAGNOLI, BASIS)
  {
    GeneratorBits();
    BasisHalves();
  }

  lemma BasisHalves()
    ensures Halved(Digits(R8), Digits(R4)) && Halved(Digits(R4), Digits(R2)) && Halved(Digits(R2), Digits(R1))
  {
    HalvedReg(R8, R4);
    HalvedReg(R4, R2);
    HalvedReg(R2, R1);
  }

  lemma HalvedReg(w: Reg, z: Reg)
    requires z == HalfReg(w)
    ensures Halved(Digits(w), Digits(z))
  {
    HalvedLow(w, z);
    HalvedHigh(w, z);
  }

  function HalfReg(w: Reg): Reg {
    Reg(Half(w.d0, w.d1), Half(w.d1, w.d2), Half(w.d2, w.d3), Half(w.d3, w.d4),
        Half(w.d4, w.d5), Half(w.d5, w.d6), Half(w.d6, w.d7), Half(w.d7, H0))
  }

  lemma HalvedLow(w: Reg, z: Reg)
    requires z == HalfReg(w)
    ensures HalvedAt(Digits(w), Digits(z), 0) && HalvedAt(Digits(w), Digits(z), 1)
    ensures HalvedAt(Digits(w), Digits(z), 2) && HalvedAt(Digits(w), Digits(z), 3)
  {}

  lemma HalvedHigh(w: Reg, z: Reg)
    requires z == HalfReg(w)
    ensures HalvedAt(Digits(w), Digits(z), 4) && HalvedAt(Digits(w), Digits(z), 5)
    ensures HalvedAt(Digits(w), Digits(z), 6) && HalvedAt(Digits(w), Digits(z), 7)
  {}

  function Half(d: Nib, next: Nib): Nib { Nib(d.b1, d.b2, d.b3, next.b0) }

  // ---- feeding registers --------------------------------------------------

  const NONE := Reg(H0, H0, H0, H0, H0, H0, H0, H0)
  const FULL := Reg(HF, HF, HF, HF, HF, HF, HF, HF)

  function PickReg(b: bool, r: Reg): Reg { if b then r else NONE }

  function TableReg(d: Nib): Reg {
    XorReg(XorReg(PickReg(d.b0, R1), PickReg(d.b1, R2)), XorReg(PickReg(d.b2, R4), PickReg(d.b3, R8)))
  }

  function FeedReg(c: Reg, n: Nib): Reg {
    XorReg(TableReg(XorNib(c.d0, n)), Reg(c.d1, c.d2, c.d3, c.d4, c.d5, c.d6, c.d7, H0))
  }

  lemma XorDigits(a: Reg, b: Reg)
    ensures Digits(XorReg(a, b)) == XorRow(Digits(a), Digits(b))
  {
    var x, y, z := Digits(a), Digits(b), Digits(XorReg(a, b));
    assert z[0] == XorNib(x[0], y[0]) && z[1] == XorNib(x[1], y[1]) && z[2] == XorNib(x[2], y[2]);
    assert z[3] == XorNib(x[3], y[3]) && z[4] == XorNib(x[4], y[4]) && z[5] == XorNib(x[5], y[5]);
    assert z[6] == XorNib(x[6], y[6]) && z[7] == XorNib(x[7], y[7]);
    SameRows(z, XorRow(x, y), x, y);
  }

  lemma SameRows(z: Row, u: Row, x: Row, y: Row)
    requires forall i :: 0 <= i < 8 ==> u[i] == XorNib(x[i], y[i])
    requires z[0] == u[0] && z[1] == u[1] && z[2] == u[2] && z[3] == u[3]
    requires z[4] == u[4] && z[5] == u[5] && z[6] == u[6] && z[7] == u[7]
    ensures z == u
  {}

  lemma PickDigits(b: bool, r: Reg)
    ensures Digits(PickReg(b, r)) == Pick(b, Digits(r))
  {}

  lemma TableDigits(d: Nib)
    ensures Digits(TableReg(d)) == TableRow(BASIS, d)
  {
    var a, b, x, y := PickReg(d.b0, R1), PickReg(d.b1, R2), PickReg(d.b2, R4), PickReg(d.b3, R8);
    PickDigits(d.b0, R1);
    PickDigits(d.b1, R2);
    PickDigits(d.b2, R4);
    PickDigits(d.b3, R8);
    XorDigits(a, b);
    XorDigits(x, y);
    XorDigits(XorReg(a, b), XorReg(x, y));
  }

  lemma FeedDigits(c: Reg, n: Nib)
    ensures Digits(FeedReg(c, n)) == Feed(BASIS, Digits(c), n)
  {
    var d, rest := XorNib(c.d0, n), Reg(c.d1, c.d2, c.d3, c.d4, c.d5, c.d6, c.d7, H0);
    TableDigits(d);
    XorDigits(TableReg(d), rest);
    ShiftDigits(c);
  }

  lemma ShiftDigits(c: Reg)
    ensures Digits(Reg(c.d1, c.d2, c.d3, c.d4, c.d5, c.d6, c.d7, H0)) == Shifted(Digits(c))
  {}

  /** One byte into the register. */
  function FeedWord(c: Reg, x: u8): Reg { FeedReg(FeedReg(c, ToNib(x % 16)), ToNib(x / 16)) }

  lemma FeedWordDigits(c: Reg, x: u8)
    ensures Digits(FeedWord(c, x)) == FeedByte(BASIS, Digits(c), x)
  {
    FeedDigits(c, ToNib(x % 16));
    FeedDigits(FeedReg(c, ToNib(x % 16)), ToNib(x / 16));
  }

  /** Bytes into a register, one after the other, whatever a byte does. */
  function Fold<S>(f: (S, u8) -> S, c: S, m: Bytes): S
    decreases |m|, m
  {
    if m == [] then c else f(Fold(f, c, m[..|m| - 1]), m[|m| - 1])
  }

  lemma FoldLast<S>(f: (S, u8) -> S, c: S, m: Bytes, x: u8)
    ensures Fold(f, c, m + [x]) == f(Fold(f, c, m), x)
  {
    assert (m + [x])[..|m|] == m;
  }

  lemma FoldThree<S>(f: (S, u8) -> S, c: S, m: Bytes, x1: u8, c1: S, x2: u8, c2: S, x3: u8, c3: S)
    requires f(Fold(f, c, m), x1) == c1 && f(c1, x2) == c2 && f(c2, x3) == c3
    ensures Fold(f, c, m + [x1] + [x2] + [x3]) == c3
  {
    FoldLast(f, c, m, x1);
    FoldLast(f, c, m + [x1], x2);
    FoldLast(f, c, m + [x1] + [x2], x3);
  }

  lemma {:induction false} FoldDigits(c: Reg, m: Bytes)
    ensures Digits(Fold(FeedWord, c, m)) == FeedAll(BASIS, Digits(c), m)
    decreases |m|
  {
    if m != [] {
      var before, x := m[..|m| - 1], m[|m| - 1];
      FoldDigits(c, before);
      FeedWordDigits(Fold(FeedWord, c, before), x);
    }
  }

  lemma FullDigits()
    ensures Digits(FULL) == START
  {}

  lemma CrcOfFold(m: Bytes, c: Reg)
    requires Fold(FeedWord, FULL, m) == c
    ensures Crc(m) == Value(XorReg(c, FULL))
  {
    FullDigits();
    IsTheBasis();
    CrcInDigits(BASIS, m);
    FoldDigits(FULL, m);
    XorDigits(c, FULL);
    ValueSpelled(XorReg(c, FULL));
  }

  // ---- the check value ----------------------------------------------------

  lemma TwoDigits(c: Reg, x: u8, lo: Nib, hi: Nib, y: Reg, z: Reg)
    requires lo == ToNib(x % 16) && hi == ToNib(x / 16) && y == FeedReg(c, lo) && z == FeedReg(y, hi)
    ensures FeedWord(c, x) == z
  {}

  lemma CheckByte1()
    ensures FeedWord(Reg(HF, HF, HF, HF, HF, HF, HF, HF), 0x31) == Reg(HC, H1, H6, H6, HA, H0, HF, H6)
  {
    TwoDigits(Reg(HF, HF, HF, HF, HF, HF, HF, HF), 0x31, H1, H3,
              Reg(H5, HE, H7, H5, HF, HC, HC, HE), Reg(HC, H1, H6, H6, HA, H0, HF, H6));
  }

  lemma CheckByte2()
    ensures FeedWord(Reg(HC, H1, H6, H6, HA, H0, HF, H6), 0x32) == Reg(HF, H9, HB, H3, HA, HA, HC, H8)
  {
    TwoDigits(Reg(HC, H1, H6, H6, HA, H0, HF, H6), 0x32, H2, H3,
              Reg(HB, H7, HE, H0, H0, HC, H5, HE), Reg(HF, H9, HB, H3, HA, HA, HC, H8));
  }

  lemma CheckByte3()
    ensures FeedWord(Reg(HF, H9, HB, H3, HA, HA, HC, H8), 0x33) == Reg(HD, H4, H0, HD, H4, H8, HF, HE)
  {
    TwoDigits(Reg(HF, H9, HB, H3, HA, HA, HC, H8), 0x33, H3, H3,
              Reg(HD, H7, H5, H8, H7, H4, HB, HC), Reg(HD, H4, H0, HD, H4, H8, HF, HE));
  }

  lemma CheckByte4()
    ensures FeedWord(Reg(HD, H4, H0, HD, H4, H8, HF, HE), 0x34) == Reg(H1, H1, HB, H0, H5, HC, H9, H0)
  {
    TwoDigits(Reg(HD, H4, H0, HD, H4, H8, HF, HE), 0x34, H4, H3,
              Reg(H3, H1, H1, HB, H0, H5, HC, H9), Reg(H1, H1, HB, H0, H5, HC, H9, H0));
  }

  lemma CheckByte5()
    ensures FeedWord(Reg(H1, H1, HB, H0, H5, HC, H9, H0), 0x35) == Reg(HA, HC, HC, HD, HE, H2, H7, HE)
  {
    TwoDigits(Reg(H1, H1, HB, H0, H5, HC, H9, H0), 0x35, H5, H3,
              Reg(HD, H0, HD, H4, H7, HE, H1, H4), Reg(HA, HC, HC, HD, HE, H2, H7, HE));
  }

  lemma CheckByte6()
    ensures FeedWord(Reg(HA, HC, HC, HD, HE, H2, H7, HE), 0x36) == Reg(H9, H7, HE, H8, HA, HC, HE, HB)
  {
    TwoDigits(Reg(HA, HC, HC, HD, HE, H2, H7, HE), 0x36, H6, H3,
              Reg(H8, H0, HB, HC, HF, HF, HD, HC), Reg(H9, H7, HE, H8, HA, HC, HE, HB));
  }

  lemma CheckByte7()
    ensures FeedWord(Reg(H9, H7, HE, H8, HA, HC, HE, HB), 0x37) == Reg(H5, H1, H8, H6, HD, HB, HD, HE)
  {
    TwoDigits(Reg(H9, H7, HE, H8, HA, HC, HE, HB), 0x37, H7, H3,
              Reg(HD, HF, H0, H0, HC, HD, H8, HE), Reg(H5, H1, H8, H6, HD, HB, HD, HE));
  }

  lemma CheckByte8()
    ensures FeedWord(Reg(H5, H1, H8, H6, HD, HB, HD, HE), 0x38) == Reg(H5, H6, HF, H7, H8, H7, HF, H9)
  {
    TwoDigits(Reg(H5, H1, H8, H6, HD, HB, HD, HE), 0x38, H8, H3,
              Reg(HA, H2, H7, H3, H8, H0, HD, HD), Reg(H5, H6, HF, H7, H8, H7, HF, H9));
  }

  lemma CheckByte9()
    ensures FeedWord(Reg(H5, H6, HF, H7, H8, H7, HF, H9), 0x39) == Reg(HC, H7, HD, H6, H9, HF, HC, H1)
  {
    TwoDigits(Reg(H5, H6, HF, H7, H8, H7, HF, H9), 0x39, H9, H3,
              Reg(H2, H3, H1, HA, HA, H7, HA, HC), Reg(HC, H7, HD, H6, H9, HF, HC, H1));
  }

  lemma Check<S>(f: (S, u8) -> S, c0: S, c1: S, c2: S, c3: S, c4: S, c5: S, c6: S, c7: S, c8: S, c9: S)
    requires f(c0, 0x31) == c1 && f(c1, 0x32) == c2 && f(c2, 0x33) == c3 && f(c3, 0x34) == c4 && f(c4, 0x35) == c5
    requires f(c5, 0x36) == c6 && f(c6, 0x37) == c7 && f(c7, 0x38) == c8 && f(c8, 0x39) == c9
    ensures Fold(f, c0, [0x31, 0x32, 0x33, 0x34, 0x35, 0x36, 0x37, 0x38, 0x39]) == c9
  {
    var m := [] + [0x31] + [0x32] + [0x33];
    FoldThree(f, c0, [], 0x31, c1, 0x32, c2, 0x33, c3);
    FoldThree(f, c0, m, 0x34, c4, 0x35, c5, 0x36, c6);
    FoldThree(f, c0, m + [0x34] + [0x35] + [0x36], 0x37, c7, 0x38, c8, 0x39, c9);
    assert m + [0x34] + [0x35] + [0x36] + [0x37] + [0x38] + [0x39] == [0x31, 0x32, 0x33, 0x34, 0x35, 0x36, 0x37, 0x38, 0x39];
  }

  lemma CheckFold()
    ensures Fold(FeedWord, FULL, [0x31, 0x32, 0x33, 0x34, 0x35, 0x36, 0x37, 0x38, 0x39]) == Reg(HC, H7, HD, H6, H9, HF, HC, H1)
  {
    CheckByte1();
    CheckByte2();
    CheckByte3();
    CheckByte4();
    CheckByte5();
    CheckByte6();
    CheckByte7();
    CheckByte8();
    CheckByte9();
    Check(FeedWord, FULL,
          Reg(HC, H1, H6, H6, HA, H0, HF, H6),
          Reg(HF, H9, HB, H3, HA, HA, HC, H8),
          Reg(HD, H4, H0, HD, H4, H8, HF, HE),
          Reg(H1, H1, HB, H0, H5, HC, H9, H0),
          Reg(HA, HC, HC, HD, HE, H2, H7, HE),
          Reg(H9, H7, HE, H8, HA, HC, HE, HB),
          Reg(H5, H1, H8, H6, HD, HB, HD, HE),
          Reg(H5, H6, HF, H7, H8, H7, HF, H9),
          Reg(HC, H7, HD, H6, H9, HF, HC, H1));
  }

  lemma Complement()
    ensures Value(XorReg(Reg(HC, H7, HD, H6, H9, HF, HC, H1), FULL)) == 0xE306_9283
  {}

  /** The check value of CRC-32C: the nine digits "123456789" give 0xE3069283. */
  lemma CheckValue()
    ensures Crc([0x31, 0x32, 0x33, 0x34, 0x35, 0x36, 0x37, 0x38, 0x39]) == 0xE306_9283
  {
    CheckFold();
    CrcOfFold([0x31, 0x32, 0x33, 0x34, 0x35, 0x36, 0x37, 0x38, 0x39], Reg(HC, H7, HD, H6, H9, HF, HC, H1));
    Complement();
  }
}
