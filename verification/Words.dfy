/** Unsigned machine integers, their bits and their little-endian bytes. */
module Words {

  const U32_MAX: nat := 0xFFFF_FFFF
  const U64_MAX: nat := 0xFFFF_FFFF_FFFF_FFFF

  type u8 = x: int | 0 <= x < 0x100
  type u32 = x: int | 0 <= x <= U32_MAX
  type u64 = x: int | 0 <= x <= U64_MAX

  type Bytes = seq<u8>

  function Min(a: nat, b: nat): nat { if a < b then a else b }

  function Max(a: nat, b: nat): nat { if a < b then b else a }

  function SaturatingInc(n: nat, max: nat): nat { if n < max then n + 1 else max }

  function SaturatingSub(a: int, b: int): nat { if a <= b then 0 else a - b }

  lemma Regroup<T>(a: seq<T>, b: seq<T>, c: seq<T>)
    ensures (a + b) + c == a + (b + c)
  {}

  /** Quotient and remainder are unique. */
  lemma ModUnique(m: nat, x: int, q: int, r: int)
    requires 0 <= r < m && x == m * q + r
    ensures x % m == r
  {
    var d := x / m - q;
    assert m * d == m * (x / m) - m * q == r - x % m;
    Multiples(m, d);
  }

  lemma Multiples(m: nat, d: int)
    ensures d >= 1 ==> m * d >= m
    ensures d <= -1 ==> m * d + m <= 0
  {}

  /** Two numbers have the same remainder exactly when a multiple of `m` apart. */
  lemma SameModIff(m: nat, a: nat, b: nat)
    requires m > 0 && a <= b
    ensures a % m == b % m <==> (b - a) % m == 0
    ensures (b - a) % m == 0 ==> a == b || b - a >= m
  {
    var q, r := b / m - a / m, b % m - a % m;
    assert b - a == m * q + r by {
      assert m * q == m * (b / m) - m * (a / m);
    }
    if r >= 0 {
      ModUnique(m, b - a, q, r);
    } else {
      assert m * (q - 1) == m * q - m;
      ModUnique(m, b - a, q - 1, r + m);
    }
    if b - a < m {
      ModUnique(m, b - a, 0, b - a);
    }
  }

  function Pow2(n: nat): (p: nat)
    ensures p > 0
  {
    if n == 0 then 1 else 2 * Pow2(n - 1)
  }

  lemma Pow2Values()
    ensures Pow2(8) == 0x100 && Pow2(32) == U32_MAX + 1
  {
    assert Pow2(8) == 0x100;
    assert Pow2(16) == 0x1_0000;
    assert Pow2(24) == 0x100_0000;
  }

  /** The `k` low bits of `n`, least significant first. */
  function ToBits(n: nat, k: nat): (p: seq<bool>)
    ensures |p| == k
    decreases k, n
  {
    if k == 0 then [] else [n % 2 == 1] + ToBits(n / 2, k - 1)
  }

  function FromBits(p: seq<bool>): nat
    decreases |p|
  {
    if p == [] then 0 else (if p[0] then 1 else 0) + 2 * FromBits(p[1..])
  }

  lemma {:induction false} BitsRoundTrip(n: nat, k: nat)
    requires n < Pow2(k)
    ensures FromBits(ToBits(n, k)) == n
    decreases k
  {
    if k > 0 {
      BitsRoundTrip(n / 2, k - 1);
      assert ToBits(n, k)[1..] == ToBits(n / 2, k - 1);
    }
  }

  lemma {:induction false} FromBitsRoundTrip(p: seq<bool>)
    ensures FromBits(p) < Pow2(|p|) && ToBits(FromBits(p), |p|) == p
  {
    if p != [] {
      FromBitsRoundTrip(p[1..]);
      assert p == [p[0]] + p[1..];
    }
  }

  /** The `k` low bytes of `n`, least significant first. */
  function ToLe(n: nat, k: nat): (b: Bytes)
    ensures |b| == k
    decreases k, n
  {
    if k == 0 then [] else [n % 0x100] + ToLe(n / 0x100, k - 1)
  }

  function FromLe(b: Bytes): nat {
    if b == [] then 0 else b[0] + 0x100 * FromLe(b[1..])
  }

  /** The number four or eight little-endian bytes stand for, written out. */
  function Le32(b: Bytes, at: nat): nat
    requires at + 4 <= |b|
  {
    b[at] + 0x100 * (b[at + 1] as int) + 0x1_0000 * (b[at + 2] as int) + 0x100_0000 * (b[at + 3] as int)
  }

  function Le64(b: Bytes, at: nat): nat
    requires at + 8 <= |b|
  {
    Le32(b, at) + 0x1_0000_0000 * Le32(b, at + 4)
  }

  lemma FourBytes(b: Bytes, at: nat)
    requires at + 4 <= |b|
    ensures FromLe(b[at..at + 4]) == Le32(b, at)
  {
    FromLeFirst(b, at, at + 4);
    FromLeFirst(b, at + 1, at + 4);
    FromLeFirst(b, at + 2, at + 4);
    FromLeFirst(b, at + 3, at + 4);
  }

  lemma EightBytes(b: Bytes, at: nat)
    requires at + 8 <= |b|
    ensures FromLe(b[at..at + 8]) == Le64(b, at)
  {
    FromLeFirst(b, at, at + 8);
    FromLeFirst(b, at + 1, at + 8);
    FromLeFirst(b, at + 2, at + 8);
    FromLeFirst(b, at + 3, at + 8);
    FourBytes(b, at + 4);
  }

  lemma FromLeFirst(b: Bytes, i: nat, j: nat)
    requires i < j <= |b|
    ensures FromLe(b[i..j]) == b[i] + 0x100 * FromLe(b[i + 1..j])
  {
    assert b[i..j][1..] == b[i + 1..j];
  }

  function Pow256(n: nat): (p: nat)
    ensures p > 0
  {
    if n == 0 then 1 else 0x100 * Pow256(n - 1)
  }

  lemma {:induction false} LeRoundTrip(n: nat, k: nat)
    requires n < Pow256(k)
    ensures FromLe(ToLe(n, k)) == n
    decreases k
  {
    if k > 0 {
      LeRoundTrip(n / 0x100, k - 1);
      assert ToLe(n, k)[1..] == ToLe(n / 0x100, k - 1);
    }
  }

  lemma LowByte(low: u8, high: nat)
    ensures (low + 0x100 * high) % 0x100 == low && (low + 0x100 * high) / 0x100 == high
  {}

  lemma {:induction false} FromLeRoundTrip(b: Bytes)
    ensures FromLe(b) < Pow256(|b|) && ToLe(FromLe(b), |b|) == b
  {
    if b != [] {
      FromLeRoundTrip(b[1..]);
      LowByte(b[0], FromLe(b[1..]));
      assert b == [b[0]] + b[1..];
    }
  }

  lemma Pow256Values()
    ensures Pow256(4) == U32_MAX + 1 && Pow256(8) == U64_MAX + 1
  {
    assert Pow256(4) == 0x1_0000_0000;
    assert Pow256(8) == 0x100 * (0x100 * (0x100 * (0x100 * Pow256(4))));
  }

  /** The bits of a message in transmission order. */
  function MessageBits(m: Bytes): (p: seq<bool>)
    ensures |p| == 8 * |m|
  {
    if m == [] then [] else ToBits(m[0], 8) + MessageBits(m[1..])
  }

  /** A number splits at bit `j` into its remainder and its quotient. */
  lemma {:induction false} ToBitsSplit(r: nat, q: nat, j: nat, k: nat)
    requires r < Pow2(j)
    ensures ToBits(r + Pow2(j) * q, j + k) == ToBits(r, j) + ToBits(q, k)
    decreases j
  {
    if j == 0 {
      assert ToBits(r, 0) + ToBits(q, k) == ToBits(q, k);
    } else {
      var t := Pow2(j - 1) * q;
      assert Pow2(j) * q == 2 * t;
      assert (r + 2 * t) / 2 == r / 2 + t && (r + 2 * t) % 2 == r % 2;
      ToBitsSplit(r / 2, q, j - 1, k);
    }
  }

  /** Little-endian bytes and little-endian bits agree. */
  lemma {:induction false} MessageBitsOfLe(n: nat, k: nat)
    ensures MessageBits(ToLe(n, k)) == ToBits(n, 8 * k)
    decreases k
  {
    if k > 0 {
      var b := ToLe(n, k);
      assert b[1..] == ToLe(n / 0x100, k - 1);
      MessageBitsOfLe(n / 0x100, k - 1);
      assert Pow2(8) == 0x100;
      ToBitsSplit(n % 0x100, n / 0x100, 8, 8 * (k - 1));
    }
  }

  lemma {:induction false} MessageBitsConcat(a: Bytes, b: Bytes)
    ensures MessageBits(a + b) == MessageBits(a) + MessageBits(b)
  {
    if a == [] {
      assert a + b == b;
    } else {
      assert (a + b)[1..] == a[1..] + b;
      MessageBitsConcat(a[1..], b);
    }
  }

  lemma {:induction false} MessageBitsInjective(a: Bytes, b: Bytes)
    requires |a| == |b| && MessageBits(a) == MessageBits(b)
    ensures a == b
  {
    if a != [] {
      var p, q := MessageBits(a), MessageBits(b);
      assert p[..8] == ToBits(a[0], 8) && q[..8] == ToBits(b[0], 8);
      assert Pow2(8) == 0x100;
      BitsRoundTrip(a[0], 8);
      BitsRoundTrip(b[0], 8);
      assert p[8..] == MessageBits(a[1..]) && q[8..] == MessageBits(b[1..]);
      MessageBitsInjective(a[1..], b[1..]);
      assert a == [a[0]] + a[1..] && b == [b[0]] + b[1..];
    }
  }
}
