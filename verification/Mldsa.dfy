/**
 The coefficient arithmetic of ML-DSA (src/crypto/mldsa.c, FIPS 204): Montgomery reduction,
 the centred reduction, bit reversal and the twiddle factors.
 */
module Mldsa {
  import opened Words
  import opened ModArith

  const N: nat := 256
  const Q: int := 8380417
  const QINV: int := 58728449
  const ZETA: int := 1753
  const R32: int := 0x1_0000_0000

  type i32 = x: int | -0x8000_0000 <= x < 0x8000_0000
  type i64 = x: int | -0x8000_0000_0000_0000 <= x < 0x8000_0000_0000_0000

  // ---------------------------------------------------------------------------
  // Reductions
  // ---------------------------------------------------------------------------

  /** The low 32 bits read as a signed number. */
  function Signed32(x: int): i32 {
    var u := x % R32;
    if u < 0x8000_0000 then u else u - R32
  }

  lemma {:induction false} Signed32Cong(x: int)
    ensures Cong(Signed32(x), x, R32)
  {
    hide Cong;
    CongMod(x, R32);
    var u := x % R32;
    if u >= 0x8000_0000 {
      CongFromQuotient(u - R32, u, -1, R32);
      CongTrans(u - R32, u, x, R32);
    }
  }

  /** a * 2^-32 modulo q, between -q and q. */
  function MontReduce(a: i64): int
  {
    (a - Signed32(a % R32 * QINV) * Q) / R32
  }

  lemma {:induction false} QInvOk()
    ensures Cong(QINV * Q, 1, R32)
  {
    assert QINV * Q == 114592 * R32 + 1;
  }

  /** The subtraction clears the low word, so the shift divides exactly. */
  lemma {:induction false} LowWordGone(a: int)
    ensures Cong(a - Signed32(a % R32 * QINV) * Q, 0, R32)
  {
    hide Cong, Signed32;
    var t := Signed32(a % R32 * QINV);
    Signed32Cong(a % R32 * QINV);
    CongMod(a, R32);
    CongRefl(QINV, R32);
    CongMul(a % R32, a, QINV, QINV, R32);
    CongTrans(t, a % R32 * QINV, a * QINV, R32);
    CongRefl(Q, R32);
    CongMul(t, a * QINV, Q, Q, R32);
    QInvOk();
    CongRefl(a, R32);
    CongMul(a, a, QINV * Q, 1, R32);
    assert a * QINV * Q == a * (QINV * Q);
    CongTrans(t * Q, a * (QINV * Q), a * 1, R32);
    CongAdd(a, a, t * Q, a, R32);
  }

  lemma {:induction false} MontReduceOk(a: i64)
    requires -0x8000_0000 * Q < a < 0x8000_0000 * Q
    ensures -Q < MontReduce(a) < Q && Cong(MontReduce(a) * R32, a, Q)
  {
    hide Cong, Signed32;
    var t := Signed32(a % R32 * QINV);
    LowWordGone(a);
    var d := CongQuotient(a - t * Q, 0, R32);
    DivModUnique(a - t * Q, d, 0, R32);
    assert -0x8000_0000 <= t < 0x8000_0000;
    CongFromQuotient(d * R32, a, -t, Q);
  }

  /** Reduction to the middle: no 32-bit sum may overflow, hence the bound on a. */
  function Reduce32(a: i32): int
    requires a + 0x40_0000 < 0x8000_0000
  {
    a - (a + 0x40_0000) / 0x80_0000 * Q
  }

  predicate Small(a: int) {
    -6283009 <= a <= 6283008
  }

  lemma {:induction false} Reduce32Ok(a: i32)
    requires a + 0x40_0000 < 0x8000_0000
    ensures Small(Reduce32(a)) && Cong(Reduce32(a), a, Q)
  {
    CongFromQuotient(Reduce32(a), a, -((a + 0x40_0000) / 0x80_0000), Q);
  }

  /** Both ends of that range are reached. */
  lemma {:induction false} Reduce32Ends()
    ensures Reduce32(-2143289344) == -6283009 && Reduce32(2143289343) == 6283008
  {
  }

  function Caddq(a: i32): int {
    if a < 0 then a + Q else a
  }

  // ---------------------------------------------------------------------------
  // Bit reversal
  // ---------------------------------------------------------------------------

  /** The low n bits of x in reverse. */
  function Rev(x: nat, n: nat): (r: nat)
    ensures r < Two(n)
    decreases n
  {
    if n == 0 then 0 else x % 2 * Two(n - 1) + Rev(x / 2, n - 1)
  }

  lemma {:induction false} RevZero(n: nat)
    ensures Rev(0, n) == 0
  {
    if n > 0 {
      RevZero(n - 1);
    }
  }

  /** Indices that mirror each other within a layer reverse to exponents that add up to 2^n. */
  lemma {:induction false} RevPair(l: nat, b: nat, n: nat)
    requires l < n && b < Two(l)
    ensures Rev(Two(l) + b, n) + Rev(2 * Two(l) - 1 - b, n) == Two(n)
    decreases l
  {
    hide Rev, Two;
    TwoStep(l);
    if l == 0 {
      RevOne(n);
      TwoStep(n);
    } else {
      var t := Two(l - 1);
      Halved(t, b);
      RevPair(l - 1, b / 2, n - 1);
      RevPairStep(2 * t + b, 4 * t - 1 - b, n);
    }
  }

  lemma {:induction false} RevOne(n: nat)
    requires n > 0
    ensures Rev(1, n) == Two(n - 1)
  {
    RevZero(n - 1);
  }

  lemma {:induction false} TwoStep(k: nat)
    ensures Two(k) == if k == 0 then 1 else 2 * Two(k - 1)
  {
  }

  lemma {:induction false} RevBit(x: nat, n: nat)
    requires n > 0
    ensures Rev(x, n) == (if x % 2 == 1 then Two(n - 1) else 0) + Rev(x / 2, n - 1)
  {
  }

  lemma {:induction false} RevPairStep(x: nat, y: nat, n: nat)
    requires n > 0 && x % 2 + y % 2 == 1 && Rev(x / 2, n - 1) + Rev(y / 2, n - 1) == Two(n - 1)
    ensures Rev(x, n) + Rev(y, n) == Two(n)
  {
    if x % 2 == 0 {
      assert y % 2 == 1;
    }
  }

  lemma {:induction false} Halved(t: nat, b: nat)
    ensures (2 * t + b) / 2 == t + b / 2 && (4 * t - 1 - b) / 2 == 2 * t - 1 - b / 2
    ensures (2 * t + b) % 2 + (4 * t - 1 - b) % 2 == 1
  {
  }

  /** brv8: bit by bit. */
  method Brv8(x: nat) returns (r: nat)
    ensures r == Rev(x, 8)
  {
    r := 0;
    var y, p := x, 128;
    assert Two(7) == 128;
    hide Rev, Two;
    for i := 0 to 8
      invariant (i < 8 ==> p == Two(7 - i)) && r + Rev(y, 8 - i) == Rev(x, 8)
    {
      RevBit(y, 8 - i);
      TwoStep(7 - i);
      if y % 2 == 1 {
        r := r + p;
      }
      y, p := y / 2, p / 2;
    }
    RevNone(y);
  }

  lemma {:induction false} RevNone(y: nat)
    ensures Rev(y, 0) == 0
  {
  }

  // ---------------------------------------------------------------------------
  // Twiddle factors
  // ---------------------------------------------------------------------------

  /** The power of zeta that butterfly k multiplies by. */
  function Z(k: nat): int {
    Pow(ZETA, Rev(k, 8))
  }

  lemma {:induction false} Squared(e: nat, x: int, y: int, q: int)
    requires Cong(Pow(ZETA, e), x, Q) && x * x - y == q * Q
    ensures Cong(Pow(ZETA, 2 * e), y, Q)
  {
    hide Cong, Pow;
    PowAdd(ZETA, e, e);
    CongMul(Pow(ZETA, e), x, Pow(ZETA, e), x, Q);
    CongFromQuotient(x * x, y, q, Q);
    CongTrans(Pow(ZETA, e) * Pow(ZETA, e), x * x, y, Q);
  }

  /** zeta is a 512th root of unity: its 256th power is -1. */
  lemma {:induction false} RootNegative()
    ensures Cong(Pow(ZETA, 256), -1, Q)
  {
    hide Cong;
    assert Pow(ZETA, 1) == ZETA * Pow(ZETA, 0);
    hide Pow;
    CongRefl(ZETA, Q);
    Squared(Two(0), 1753, 3073009, 0);
    Squared(Two(1), 3073009, 3602218, 1126839);
    Squared(Two(2), 3602218, 5010068, 1548368);
    Squared(Two(3), 5010068, 7778734, 2995170);
    Squared(Two(4), 7778734, 5178923, 7220249);
    Squared(Two(5), 5178923, 3765607, 3200466);
    Squared(Two(6), 3765607, 4808194, 1692015);
    Squared(Two(7), 4808194, 8380416, 2758660);
    assert 2 * Two(7) == 256;
    CongFromQuotient(8380416, -1, 1, Q);
    CongTrans(Pow(ZETA, 256), 8380416, -1, Q);
  }

  /** The twiddle factor that undoes another. */
  lemma {:induction false} ZPair(l: nat, b: nat)
    requires l < 8 && b < Two(l)
    ensures Cong(Z(Two(l) + b) * Z(2 * Two(l) - 1 - b), -1, Q)
  {
    hide Cong, Pow, Rev;
    RevPair(l, b, 8);
    assert Two(8) == 256;
    PowAdd(ZETA, Rev(Two(l) + b, 8), Rev(2 * Two(l) - 1 - b, 8));
    RootNegative();
  }

  /** zeta^e modulo q by squaring, as zetas_init does it. */
  method ZetaPower(e: nat) returns (acc: nat)
    ensures acc < Q && Cong(acc, Pow(ZETA, e), Q)
  {
    hide Cong;
    acc := 1;
    var base, bits := ZETA, e;
    ghost var done := 0;
    ghost var w := 1;
    CongRefl(1, Q);
    CongRefl(ZETA, Q);
    assert Pow(ZETA, 1) == ZETA * Pow(ZETA, 0);
    while bits > 0
      invariant acc < Q && 0 <= base < Q && done + bits * w == e && done >= 0 && w >= 1
      invariant Cong(acc, Pow(ZETA, done), Q) && Cong(base, Pow(ZETA, w), Q)
      decreases bits
    {
      hide Pow;
      if bits % 2 == 1 {
        Mult(acc, base, Pow(ZETA, done), Pow(ZETA, w));
        PowAdd(ZETA, done, w);
        acc := (acc * base) % Q;
        done := done + w;
        assert done + (bits - 1) * w == e;
      }
      Mult(base, base, Pow(ZETA, w), Pow(ZETA, w));
      PowAdd(ZETA, w, w);
      base := (base * base) % Q;
      assert done + bits / 2 * (w + w) == e by {
        Halves(bits, w);
      }
      bits, w := bits / 2, w + w;
    }
    assert done == e;
  }

  lemma {:induction false} Halves(bits: nat, w: nat)
    ensures bits / 2 * (w + w) == (bits - bits % 2) * w
  {
    assert bits - bits % 2 == 2 * (bits / 2);
    assert 2 * (bits / 2) * w == bits / 2 * (2 * w);
  }

  lemma {:induction false} Mult(a: int, b: int, x: int, y: int)
    requires Cong(a, x, Q) && Cong(b, y, Q)
    ensures Cong((a * b) % Q, x * y, Q)
  {
    hide Cong;
    CongMul(a, x, b, y, Q);
    CongMod(a * b, Q);
    CongTrans((a * b) % Q, a * b, x * y, Q);
  }

  /** A twiddle factor in Montgomery form, centred. */
  ghost predicate ZetaOk(g: int, k: nat) {
    Cong(g, Z(k) * R32, Q) && -Q < 2 * g < Q
  }

  method ZetasInit() returns (g: array<i32>)
    ensures g.Length == N && fresh(g) && forall k :: 1 <= k < N ==> ZetaOk(g[k], k)
  {
    hide Cong, Pow, Rev;
    g := new i32[N];
    var rModQ := R32 % Q;
    CongMod(R32, Q);
    for i := 0 to N
      invariant forall k :: 0 <= k < i ==> ZetaOk(g[k], k)
    {
      var e := Brv8(i);
      var acc := ZetaPower(e);
      Mult(acc, rModQ, Pow(ZETA, e), R32);
      acc := (acc * rModQ) % Q;
      g[i] := if acc > Q / 2 then acc - Q else acc;
      if acc > Q / 2 {
        CongFromQuotient(acc - Q, acc, -1, Q);
        CongTrans(acc - Q, acc, Z(i) * R32, Q);
      }
    }
    g[0] := 0;
  }
}
