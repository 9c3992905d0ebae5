/** Polynomials over GF(2), written as bit sequences with the highest power first,
    and long division by a generator of degree 32. */
module Gf2 {

  type Poly = seq<bool>

  /** A generator of degree 32 without its leading term, x^31 first; its constant
      term is set. */
  type Generator = g: Poly | |g| == 32 && g[31] witness Ones(32)

  function Zeros(n: nat): (z: Poly)
    ensures |z| == n && forall i :: 0 <= i < n ==> !z[i]
  {
    seq(n, _ => false)
  }

  function Ones(n: nat): (z: Poly)
    ensures |z| == n && forall i :: 0 <= i < n ==> z[i]
  {
    seq(n, _ => true)
  }

  function Xor(a: Poly, b: Poly): (c: Poly)
    requires |a| == |b|
    ensures |c| == |a| && forall i :: 0 <= i < |c| ==> c[i] == (a[i] != b[i])
  {
    seq(|a|, i requires 0 <= i < |a| => a[i] != b[i])
  }

  predicate IsZero(p: Poly) { forall i :: 0 <= i < |p| ==> !p[i] }

  /** Cancel the leading coefficient of `p` with a multiple of the generator and drop it. */
  function DivStep(g: Generator, p: Poly): (q: Poly)
    requires |p| > 32
    ensures |q| == |p| - 1
  {
    if p[0] then Xor(p[1..], g + Zeros(|p| - 33)) else p[1..]
  }

  /** The remainder of `p` modulo the generator, by schoolbook long division. */
  function Remainder(g: Generator, p: Poly): (r: Poly)
    requires |p| >= 32
    ensures |r| == 32
    decreases |p|
  {
    if |p| == 32 then p else Remainder(g, DivStep(g, p))
  }

  // ---- linearity --------------------------------------------------------

  lemma DivStepLinear(g: Generator, a: Poly, b: Poly)
    requires |a| == |b| > 32
    ensures DivStep(g, Xor(a, b)) == Xor(DivStep(g, a), DivStep(g, b))
  {}

  /** Division is linear: the remainder of a sum is the sum of the remainders. */
  lemma {:induction false} RemainderLinear(g: Generator, a: Poly, b: Poly)
    requires |a| == |b| >= 32
    ensures Remainder(g, Xor(a, b)) == Xor(Remainder(g, a), Remainder(g, b))
    decreases |a|
  {
    if |a| > 32 {
      DivStepLinear(g, a, b);
      RemainderLinear(g, DivStep(g, a), DivStep(g, b));
    }
  }

  /** Leading zero coefficients do not change a remainder. */
  lemma {:induction false} RemainderSkipsZeros(g: Generator, n: nat, p: Poly)
    requires |p| >= 32
    ensures Remainder(g, Zeros(n) + p) == Remainder(g, p)
  {
    if n == 0 {
      assert Zeros(0) + p == p;
    } else {
      assert (Zeros(n) + p)[1..] == Zeros(n - 1) + p;
      RemainderSkipsZeros(g, n - 1, p);
    }
  }

  // ---- no generator divides a short burst --------------------------------

  lemma ZeroIsZeros(p: Poly)
    requires IsZero(p)
    ensures p == Zeros(|p|)
  {}

  /** Multiplying by powers of x never reaches a multiple of the generator:
      a 32-bit window followed by zeros has remainder zero only if it is zero. */
  lemma {:induction false} ShiftedWindowNonzero(g: Generator, w: Poly, n: nat)
    requires |w| == 32
    requires IsZero(Remainder(g, w + Zeros(n)))
    ensures IsZero(w)
    decreases n
  {
    if n == 0 {
      assert w + Zeros(0) == w;
    } else {
      var p := w + Zeros(n);
      var w' := DivStep(g, p)[..32];
      assert DivStep(g, p) == w' + Zeros(n - 1);
      ShiftedWindowNonzero(g, w', n - 1);
      assert !w'[31];
      assert w'[31] == w[0];
      forall i | 1 <= i < 32
        ensures !w[i]
      {
        assert w'[i - 1] == p[i];
      }
    }
  }

  /** `d` is zero outside the 32 consecutive positions that start at `k`. */
  predicate IsBurst(d: Poly, k: nat) {
    forall i :: 0 <= i < |d| && !(k <= i < k + 32) ==> !d[i]
  }

  /** A nonzero polynomial whose nonzero coefficients lie in 32 consecutive
      positions is not a multiple of the generator. */
  lemma BurstNonzero(g: Generator, p: Poly, k: nat)
    requires k + 32 <= |p| && IsBurst(p, k) && IsZero(Remainder(g, p))
    ensures IsZero(p)
  {
    var w, n := p[k..k + 32], |p| - k - 32;
    BurstShape(p, k);
    RemainderSkipsZeros(g, k, w + Zeros(n));
    ShiftedWindowNonzero(g, w, n);
    forall i | 0 <= i < |p|
      ensures !p[i]
    {
      if k <= i < k + 32 { assert p[i] == w[i - k]; }
    }
  }

  lemma BurstShape(p: Poly, k: nat)
    requires k + 32 <= |p| && IsBurst(p, k)
    ensures p == Zeros(k) + (p[k..k + 32] + Zeros(|p| - k - 32))
  {}

  // ---- parity: generators with an even number of terms --------------------

  /** Whether an odd number of coefficients is set. */
  function Odd(p: Poly): bool
    decreases |p|
  {
    if p == [] then false else p[0] != Odd(p[1..])
  }

  lemma {:induction false} OddXor(a: Poly, b: Poly)
    requires |a| == |b|
    ensures Odd(Xor(a, b)) == (Odd(a) != Odd(b))
  {
    if |a| > 0 {
      assert Xor(a, b)[1..] == Xor(a[1..], b[1..]);
      OddXor(a[1..], b[1..]);
    }
  }

  lemma {:induction false} OddConcat(a: Poly, b: Poly)
    ensures Odd(a + b) == (Odd(a) != Odd(b))
  {
    if a == [] {
      assert a + b == b;
    } else {
      assert (a + b)[1..] == a[1..] + b;
      OddConcat(a[1..], b);
    }
  }

  lemma {:induction false} OddZeros(n: nat)
    ensures !Odd(Zeros(n))
  {
    if n > 0 {
      assert Zeros(n)[1..] == Zeros(n - 1);
      OddZeros(n - 1);
    }
  }

  /** If the generator has an even number of terms, its leading one included, then
      division keeps the parity of the number of set coefficients. */
  lemma {:induction false} RemainderParity(g: Generator, p: Poly)
    requires |p| >= 32 && Odd(g)
    ensures Odd(Remainder(g, p)) == Odd(p)
    decreases |p|
  {
    if |p| > 32 {
      if p[0] {
        OddXor(p[1..], g + Zeros(|p| - 33));
        OddConcat(g, Zeros(|p| - 33));
        OddZeros(|p| - 33);
      }
      RemainderParity(g, DivStep(g, p));
    }
  }
}
