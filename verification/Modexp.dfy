/**
 Montgomery contexts and modular exponentiation (src/crypto/bn.c).
 */
module Modexp {
  import opened Words
  import opened ModArith
  import opened Limbs
  import opened Bn
  import opened Montgomery

  /** r is the Montgomery product of a and b: the one r below m with r * 2^(32k) = a * b modulo m. */
  ghost predicate IsMontProduct(r: int, a: int, b: int, k: nat, m: int) {
    m > 0 && 0 <= r < m && Cong(r * Pow(W32, k), a * b, m)
  }

  /** There is only one, so the 32-bit and the 64-bit loop cannot disagree. */
  lemma {:induction false} MontProductUnique(r: int, s: int, a: int, b: int, k: nat, m: int)
    requires m % 2 == 1 && IsMontProduct(r, a, b, k, m) && IsMontProduct(s, a, b, k, m)
    ensures r == s
  {
    hide Pow, Cong;
    CongSym(s * Pow(W32, k), a * b, m);
    CongTrans(r * Pow(W32, k), a * b, s * Pow(W32, k), m);
    PowW32(k);
    CancelPowTwoCong(r, s, 32 * k, m);
    CongUnique(r, s, m);
  }

  class Mont {
    const m: BigNum
    const rr: BigNum
    var m0inv: u32
    var k: nat
    const m64: array<u64>
    var m0inv64: u64
    /** The compiler has a 128-bit product, so the 64-bit loop is built in. */
    const haveU128: bool

    constructor (haveU128: bool)
      ensures Storage() && fresh(m) && fresh(m.d) && fresh(rr) && fresh(rr.d) && fresh(m64)
      ensures this.haveU128 == haveU128
    {
      m := new BigNum();
      rr := new BigNum();
      m64 := new u64[MAX_LIMBS / 2];
      m0inv, m0inv64, k := 0, 0, 0;
      this.haveU128 := haveU128;
    }

    ghost predicate Storage()
      reads this, m, m.d, rr, rr.d
    {
      m.Valid() && rr.Valid() && m != rr && m.d != rr.d && m64.Length == MAX_LIMBS / 2
    }

    ghost predicate Valid()
      reads this, m, m.d, rr, rr.d, m64
    {
      && Storage() && k == m.n && 1 <= k && k + 2 <= MAX_LIMBS
      && m.V() % 2 == 1 && m.V() > 0
      && (m.d[0] * m0inv + 1) % W32 == 0
      && 0 <= rr.V() <= m.V() && Cong(rr.V(), Pow(2, 64 * k), m.V())
      && (haveU128 && k % 2 == 0 ==> WideOk())
    }

    ghost predicate WideOk()
      requires m.Valid() && m64.Length == MAX_LIMBS / 2 && k == m.n && k >= 2
      reads this, m, m.d, m64
    {
      && (m64[0] * m0inv64 + 1) % W64 == 0
      && (forall i :: 0 <= i < k / 2 ==> m64[i] == m.d[2 * i] + W32 * m.d[2 * i + 1])
    }
  }

  /** r shares no storage with the context. */
  ghost predicate Outside(r: BigNum, c: Mont)
    reads c
  {
    r != c.m && r != c.rr && r.d != c.m.d && r.d != c.rr.d
  }

  // ---------------------------------------------------------------------------
  // Two 32-bit limbs to a 64-bit word
  // ---------------------------------------------------------------------------

  ghost predicate Packed(s: seq<int>, p: seq<int>) {
    |s| == 2 * |p| && forall i :: 0 <= i < |p| ==> p[i] == s[2 * i] + W32 * s[2 * i + 1]
  }

  lemma {:induction false} PackedVal(s: seq<int>, p: seq<int>)
    requires Packed(s, p)
    ensures Val(s, W32) == Val(p, W64)
  {
    if |p| > 0 {
      hide Val, Pow;
      var n := |p| - 1;
      PackedVal(s[..2 * n], p[..n]);
      ValPrefix(s, 2 * n, W32);
      ValPrefix(s, 2 * n + 1, W32);
      ValPrefix(p, n, W64);
      assert s[..2 * n + 2] == s && p[..n + 1] == p;
      PowPair(n);
      PowSucc(W32, 2 * n);
      var q := Pow(W64, n);
      calc {
        s[2 * n] * q + s[2 * n + 1] * (W32 * q);
        (s[2 * n] + W32 * s[2 * n + 1]) * q;
      }
    } else {
      ValEmpty(s, W32);
      ValEmpty(p, W64);
    }
  }

  lemma {:induction false} PowPair(n: nat)
    ensures Pow(W64, n) == Pow(W32, 2 * n)
  {
    hide Pow;
    PowTwo32();
    PowMul(2, 32, 2 * n);
    PowMul(2, 64, n);
  }

  // ---------------------------------------------------------------------------
  // Montgomery multiplication
  // ---------------------------------------------------------------------------

  // The low k limbs of a, zero-padded.
  method Padded(a: BigNum, k: nat) returns (p: array<u32>)
    requires a.Valid() && 1 <= k <= MAX_LIMBS
    ensures fresh(p) && p.Length == MAX_LIMBS && p[..k] == Fit(a.Limbs(), k)
  {
    p := new u32[MAX_LIMBS];
    forall i | 0 <= i < k {
      p[i] := if i < a.n then a.d[i] else 0;
    }
  }

  // The last step of both loops: bring a total below 2m down below m.
  method SubtractOnce(r: BigNum, c: Mont, ghost t: int, ghost ab: int)
    requires r.Valid() && c.Valid() && Outside(r, c)
    requires r.V() == t && 0 <= t < 2 * c.m.V()
    requires Cong(t * Pow(W32, c.k), ab, c.m.V())
    modifies r, r.d
    ensures r.Valid() && c.Valid() && 0 <= r.V() < c.m.V() && Cong(r.V() * Pow(W32, c.k), ab, c.m.V())
  {
    hide Val, Pow, Cong;
    Trim(r);
    var d := Cmp(r, c.m);
    if d >= 0 {
      ghost var m, p := c.m.V(), Pow(W32, c.k);
      Sub(r, r, c.m);
      assert c.m.V() == m && r.V() == t - m;
      SubtractCong(t, m, p, ab);
    }
  }

  lemma {:induction false} SubtractCong(t: int, m: int, p: int, ab: int)
    requires m > 0 && Cong(t * p, ab, m)
    ensures Cong((t - m) * p, ab, m)
  {
    hide Cong;
    assert (t - m) * p - t * p == (-p) * m;
    CongFromQuotient((t - m) * p, t * p, -p, m);
    CongTrans((t - m) * p, t * p, ab, m);
  }

  method MontMul32(r: BigNum, a: array<u32>, b: array<u32>, c: Mont)
    requires r.Valid() && c.Valid() && Outside(r, c)
    requires a.Length == b.Length == MAX_LIMBS && a != r.d && b != r.d
    requires Val(b[..c.k], W32) <= c.m.V()
    modifies r, r.d
    ensures r.Valid() && c.Valid()
    ensures IsMontProduct(r.V(), Val(old(a[..c.k]), W32), Val(old(b[..c.k]), W32), c.k, c.m.V())
  {
    hide Val, Pow, Cong;
    var k := c.k;
    ghost var ab := Val(a[..k], W32) * Val(b[..k], W32);
    var t := new u32[MAX_LIMBS + 2];
    Cios32(t, a, b, c.m.d, k, c.m0inv);
    ghost var total := t[..k + 1];
    ghost var mv := c.m.V();
    forall i | 0 <= i < k {
      r.d[i] := t[i];
    }
    r.n := k;
    ghost var low := r.Limbs();
    assert low == total[..k];
    ValPrefix(total, k, W32);
    assert total[..k + 1] == total;
    if k < MAX_LIMBS && t[k] != 0 {
      r.d[r.n] := t[k];
      r.n := r.n + 1;
      assert r.Limbs() == total;
    }
    assert c.m.V() == mv && c.Valid();
    SubtractOnce(r, c, Val(total, W32), ab);
  }

  method Pack(a: array<u32>, k: nat) returns (p: array<u64>)
    requires 2 * k <= a.Length
    ensures fresh(p) && p.Length == MAX_LIMBS / 2 + k && Packed(a[..2 * k], p[..k])
  {
    p := new u64[MAX_LIMBS / 2 + k];
    forall i | 0 <= i < k {
      p[i] := a[2 * i] + W32 * a[2 * i + 1];
    }
  }

  method MontMul64(r: BigNum, a: array<u32>, b: array<u32>, c: Mont)
    requires r.Valid() && c.Valid() && Outside(r, c) && c.haveU128 && c.k % 2 == 0
    requires a.Length == b.Length == MAX_LIMBS && a != r.d && b != r.d
    requires Val(b[..c.k], W32) <= c.m.V()
    modifies r, r.d
    ensures r.Valid() && c.Valid()
    ensures IsMontProduct(r.V(), Val(old(a[..c.k]), W32), Val(old(b[..c.k]), W32), c.k, c.m.V())
  {
    hide Val, Pow, Cong;
    var k := c.k / 2;
    ghost var ab, mv := Val(a[..c.k], W32) * Val(b[..c.k], W32), c.m.V();
    var x := Pack(a, k);
    var y := Pack(b, k);
    var t := new u64[MAX_LIMBS / 2 + 2];
    WideOperands(a[..c.k], b[..c.k], c.m.Limbs(), x[..k], y[..k], c.m64[..k]);
    Cios64(t, x, y, c.m64, k, c.m0inv64);
    ghost var total := t[..k + 1];
    PowPair(k);
    Unpack(r, t, k);
    PackedTotal(total, r.Limbs());
    assert c.m.V() == mv && c.Valid();
    SubtractOnce(r, c, Val(total, W64), ab);
  }

  lemma {:induction false} WideOperands(a: seq<int>, b: seq<int>, m: seq<int>, x: seq<int>, y: seq<int>, z: seq<int>)
    requires Packed(a, x) && Packed(b, y) && Packed(m, z)
    ensures Val(a, W32) == Val(x, W64) && Val(b, W32) == Val(y, W64) && Val(m, W32) == Val(z, W64)
  {
    hide Val;
    PackedVal(a, x);
    PackedVal(b, y);
    PackedVal(m, z);
  }

  // The k + 1 words of the total as 32-bit limbs; a zero top word is left off.
  method Unpack(r: BigNum, t: array<u64>, k: nat)
    requires r.Valid() && 2 * k + 2 <= MAX_LIMBS && k < t.Length
    modifies r, r.d
    ensures r.Valid() && r.n == (if t[k] != 0 then 2 * k + 2 else 2 * k)
    ensures forall i :: 0 <= i < r.n / 2 ==> r.d[2 * i] == t[i] % W32 && r.d[2 * i + 1] == t[i] / W32
    ensures t[..] == old(t[..])
  {
    forall i | 0 <= i < 2 * k {
      r.d[i] := if i % 2 == 0 then t[i / 2] % W32 else t[i / 2] / W32;
    }
    r.n := 2 * k;
    if t[k] != 0 && r.n + 2 <= MAX_LIMBS {
      r.d[2 * k] := t[k] % W32;
      r.d[2 * k + 1] := t[k] / W32;
      r.n := 2 * k + 2;
    }
    forall i | 0 <= i < r.n / 2
      ensures r.d[2 * i] == t[i] % W32 && r.d[2 * i + 1] == t[i] / W32
    {
      assert (2 * i) / 2 == i && (2 * i + 1) / 2 == i;
    }
  }

  lemma {:induction false} PackedTotal(total: seq<int>, s: seq<int>)
    requires |total| > 0 && |s| == (if total[|total| - 1] != 0 then 2 * |total| else 2 * |total| - 2)
    requires forall i :: 0 <= i < |s| / 2 ==> s[2 * i] == total[i] % W32 && s[2 * i + 1] == total[i] / W32
    ensures Val(s, W32) == Val(total, W64)
  {
    hide Val, Pow;
    var k := |total| - 1;
    forall i | 0 <= i < |s| / 2
      ensures total[i] == s[2 * i] + W32 * s[2 * i + 1]
    {
      assert total[i] == (total[i] / W32) * W32 + total[i] % W32;
    }
    if total[k] != 0 {
      PackedVal(s, total);
    } else {
      PackedVal(s, total[..k]);
      ValPrefix(total, k, W64);
      assert total[..k + 1] == total;
    }
  }

  /**
   r = a * b / 2^(32k) mod m, by whichever loop fits the modulus.  The operands may be the
   result, and may be as large as m itself.
   */
  method MontMul(r: BigNum, a: BigNum, b: BigNum, c: Mont)
    requires r.Valid() && a.Valid() && b.Valid() && c.Valid() && Outside(r, c)
    requires a.V() <= c.m.V() && b.V() <= c.m.V()
    modifies r, r.d
    ensures r.Valid() && c.Valid()
    ensures IsMontProduct(r.V(), old(a.V()), old(b.V()), c.k, c.m.V())
  {
    hide Val, Pow, Cong, IsMontProduct;
    var k := c.k;
    ghost var av, bv := a.V(), b.V();
    VBound(c.m);
    var x := Padded(a, k);
    var y := Padded(b, k);
    FitOperand(a.Limbs(), k, c.m.V());
    FitOperand(b.Limbs(), k, c.m.V());
    if c.haveU128 && k % 2 == 0 {
      MontMul64(r, x, y, c);
    } else {
      MontMul32(r, x, y, c);
    }
  }

  lemma {:induction false} FitOperand(s: seq<int>, k: nat, m: int)
    requires Digits(s, W32) && Val(s, W32) <= m < Pow(W32, k)
    ensures Val(Fit(s, k), W32) == Val(s, W32)
  {
    hide Val, Pow;
    ValFitMod(s, k, W32);
    ValBound(s, W32);
    DivModUnique(Val(s, W32), 0, Val(s, W32), Pow(W32, k));
  }

  // ---------------------------------------------------------------------------
  // Setting up a context
  // ---------------------------------------------------------------------------

  // Newton's step doubles the number of correct low bits: 1 - m x' = (1 - m x)^2.
  lemma {:induction false} NewtonStep(m: int, x: int, x': int, p: int, w: int, g: int)
    requires p > 0 && g > 0 && w == p * p * g && Cong(m * x, 1, p)
    requires Cong(x', x * (2 - m * x), w)
    ensures p * p > 0 && Cong(m * x', 1, p * p)
  {
    hide Cong;
    MulPos(p, p);
    MulPos(p * p, g);
    var q := CongQuotient(m * x, 1, p);
    var s := CongQuotient(x', x * (2 - m * x), w);
    var y := m * x;
    calc {
      m * x' - 1;
      m * (x * (2 - y) + s * w) - 1;
      { assert m * (x * (2 - y)) == y * (2 - y) by { NewtonAssoc(m, x, 2 - y); } }
      y * (2 - y) + m * (s * w) - 1;
      { assert y * (2 - y) - 1 == -((y - 1) * (y - 1)); }
      m * (s * w) - (q * p) * (q * p);
      { MulSwap(q, p, q, p); NewtonFold(m, s, p, g); }
      ((m * s) * g) * (p * p) - (q * q) * (p * p);
      ((m * s) * g - q * q) * (p * p);
    }
    CongFromQuotient(m * x', 1, (m * s) * g - q * q, p * p);
  }

  lemma {:induction false} NewtonAssoc(m: int, x: int, z: int)
    ensures m * (x * z) == (m * x) * z
  {
  }

  lemma {:induction false} NewtonFold(m: int, s: int, p: int, g: int)
    ensures m * (s * (p * p * g)) == ((m * s) * g) * (p * p)
  {
    var pp := p * p;
    calc {
      m * (s * (pp * g));
      (m * s) * (pp * g);
      (m * s) * (g * pp);
      ((m * s) * g) * pp;
    }
  }

  lemma {:induction false} NewtonWrap(m: int, x: int, w: int)
    requires w > 0
    ensures Cong((x * ((2 - m * x) % w)) % w, x * (2 - m * x), w)
  {
    hide Cong;
    var d := 2 - m * x;
    CongMod(d, w);
    CongRefl(x, w);
    CongMul(x, x, d % w, d, w);
    CongMod(x * (d % w), w);
    CongTrans((x * (d % w)) % w, x * (d % w), x * d, w);
  }

  lemma {:induction false} OddIsOne(m: int)
    requires m % 2 == 1
    ensures Cong(m * 1, 1, 2)
  {
  }

  /** The inverse of an odd word modulo 2^32, by five Newton steps. */
  method Inverse32(m0: u32) returns (inv: u32)
    requires m0 % 2 == 1
    ensures Cong(m0 * inv, 1, W32)
  {
    hide Cong;
    inv := 1;
    OddIsOne(m0);
    ghost var p: int := 2;
    var i := 0;
    while i < 5
      invariant 0 <= i <= 5 && p > 0 && Cong(m0 * inv, 1, p)
      invariant p == [2, 4, 0x10, 0x100, 0x1_0000, W32][i]
    {
      NewtonWrap(m0, inv, W32);
      ghost var x := inv;
      inv := (inv * ((2 - m0 * inv) % W32)) % W32;
      NewtonStep(m0, x, inv, p, W32, [0x4000_0000, 0x1000_0000, 0x100_0000, 0x1_0000, 1][i]);
      p := p * p;
      i := i + 1;
    }
  }

  /** The inverse of an odd word modulo 2^64, by six. */
  method Inverse64(m0: u64) returns (inv: u64)
    requires m0 % 2 == 1
    ensures Cong(m0 * inv, 1, W64)
  {
    hide Cong;
    inv := 1;
    OddIsOne(m0);
    ghost var p: int := 2;
    var i := 0;
    while i < 6
      invariant 0 <= i <= 6 && p > 0 && Cong(m0 * inv, 1, p)
      invariant p == [2, 4, 0x10, 0x100, 0x1_0000, W32, W64][i]
    {
      NewtonWrap(m0, inv, W64);
      ghost var x := inv;
      inv := (inv * ((2 - m0 * inv) % W64)) % W64;
      NewtonStep(m0, x, inv, p, W64, [0x4000_0000_0000_0000, 0x1000_0000_0000_0000, 0x100_0000_0000_0000,
                                      0x1_0000_0000_0000, W32, 1][i]);
      p := p * p;
      i := i + 1;
    }
  }

  lemma {:induction false} NegatedInverse(m: int, inv: int, w: int)
    requires w > 0 && Cong(m * inv, 1, w)
    ensures (m * ((-inv) % w) + 1) % w == 0
  {
    hide Cong;
    var n := (-inv) % w;
    CongMod(-inv, w);
    CongRefl(m, w);
    CongMul(m, m, n, -inv, w);
    CongRefl(1, w);
    CongAdd(m * n, m * (-inv), 1, 1, w);
    CongSym(m * inv, 1, w);
    CongRefl(0, w);
    assert m * (-inv) + 1 == 1 - m * inv;
    CongAdd(1, m * inv, m * inv, m * inv, w) by { CongRefl(m * inv, w); }
    CongTrans(m * n + 1, 1 - m * inv, 0, w);
    CongIffZero(m * n + 1, w);
  }

  // t = 2t mod m, for t no larger than m.
  method DoubleMod(t: BigNum, m: BigNum, ghost e: nat)
    requires t.Valid() && m.Valid() && t != m && t.d != m.d && m.n + 1 < MAX_LIMBS
    requires m.V() > 0 && t.V() <= m.V() && Cong(t.V(), Pow(2, e), m.V())
    modifies t, t.d
    ensures t.Valid() && t.V() <= m.V() && Cong(t.V(), Pow(2, e + 1), m.V())
  {
    hide Val, Pow, Cong, Wrap;
    ghost var tv, mv := t.V(), m.V();
    VBound(m);
    VBound(t);
    DoubleFits(m.n);
    DoubleCong(tv, mv, e);
    Shl1(t);
    assert t.V() == 2 * tv && m.V() == mv;
    var d := Cmp(t, m);
    if d >= 0 {
      Sub(t, t, m);
    }
  }

  lemma {:induction false} DoubleFits(n: nat)
    requires n < MAX_LIMBS
    ensures 2 * Pow(W32, n) <= Pow(W32, MAX_LIMBS)
  {
    hide Pow;
    PowSucc(W32, n);
    PowPos(W32, n);
    PowGrows(n + 1);
  }

  lemma {:induction false} DoubleCong(t: int, m: int, e: nat)
    requires m > 0 && Cong(t, Pow(2, e), m)
    ensures Cong(2 * t, Pow(2, e + 1), m) && Cong(2 * t - m, Pow(2, e + 1), m)
  {
    hide Pow, Cong;
    PowSucc(2, e);
    CongRefl(2, m);
    CongMul(2, 2, t, Pow(2, e), m);
    CongFromQuotient(2 * t - m, 2 * t, -1, m);
    CongTrans(2 * t - m, 2 * t, Pow(2, e + 1), m);
  }

  // 2^e mod m by repeated doubling.
  method PowerOfTwoMod(t: BigNum, m: BigNum, e: nat)
    requires t.Valid() && m.Valid() && t != m && t.d != m.d && m.n + 1 < MAX_LIMBS && m.V() > 0
    modifies t, t.d
    ensures t.Valid() && 0 <= t.V() <= m.V() && Cong(t.V(), Pow(2, e), m.V())
  {
    hide Val, Pow, Cong;
    ghost var mv := m.V();
    SetU32(t, 1);
    PowOne(2);
    CongRefl(1, mv);
    var i := 0;
    while i < e
      invariant 0 <= i <= e && t.Valid() && m.Valid() && m.V() == mv
      invariant t.V() <= mv && Cong(t.V(), Pow(2, i), mv)
    {
      DoubleMod(t, m, i);
      i := i + 1;
    }
    VBound(t);
  }

  /**
   Sets up a context.  It is refused exactly when the modulus is zero limbs long, even, or
   too long to leave two limbs of headroom.
   */
  method MontInit(c: Mont, m: BigNum) returns (ok: bool)
    requires c.Storage() && m.Valid() && m != c.m && m != c.rr && m.d != c.m.d && m.d != c.rr.d
    modifies c, c.m, c.m.d, c.rr, c.rr.d, c.m64
    ensures ok <==> old(m.n) > 0 && old(m.V()) % 2 == 1 && old(m.n) + 2 <= MAX_LIMBS
    ensures ok ==> c.Valid() && c.m.V() == old(m.V())
  {
    hide Val, Pow, Cong;
    if m.n > 0 {
      LowLimb(m.Limbs());
    }
    if m.n == 0 || m.d[0] % 2 == 0 {
      return false;
    }
    if m.n + 2 > MAX_LIMBS {
      return false;
    }
    ghost var mv := m.V();
    Copy(c.m, m);
    Trim(c.m);
    VBound(c.m);
    if c.m.n == 0 {
      ValEmpty(c.m.Limbs(), W32);
    }
    c.k := c.m.n;
    Precompute(c);
    return true;
  }

  // Everything that is computed once per modulus.
  method Precompute(c: Mont)
    requires c.Storage() && c.k == c.m.n && 1 <= c.k && c.k + 2 <= MAX_LIMBS && c.m.V() % 2 == 1 && c.m.V() > 0
    modifies c, c.rr, c.rr.d, c.m64
    ensures c.Valid()
  {
    hide Val, Pow, Cong;
    SetInverse(c);
    if c.haveU128 && c.k % 2 == 0 {
      WideInit(c);
    }
    PowerOfTwoMod(c.rr, c.m, 64 * c.k);
  }

  method SetInverse(c: Mont)
    requires c.Storage() && c.k == c.m.n && c.k >= 1 && c.m.V() % 2 == 1
    modifies c`m0inv
    ensures (c.m.d[0] * c.m0inv + 1) % W32 == 0
  {
    hide Val, Pow, Cong;
    LowLimb(c.m.Limbs());
    var inv := Inverse32(c.m.d[0]);
    NegatedInverse(c.m.d[0], inv, W32);
    c.m0inv := (-inv) % W32;
  }

  method WideInit(c: Mont)
    requires c.Storage() && c.k == c.m.n && c.k >= 2 && c.k % 2 == 0 && c.m.V() % 2 == 1
    modifies c`m0inv64, c.m64
    ensures c.WideOk()
  {
    hide Val, Pow, Cong;
    LowLimb(c.m.Limbs());
    EvenPart(c.m.d[0], c.m.d[1]);
    var low := c.m.d[0] + W32 * c.m.d[1];
    var inv := Inverse64(low);
    NegatedInverse(low, inv, W64);
    c.m0inv64 := (-inv) % W64;
    forall i | 0 <= i < c.k / 2 {
      c.m64[i] := c.m.d[2 * i] + W32 * c.m.d[2 * i + 1];
    }
  }

  // ---------------------------------------------------------------------------
  // Exponentiation
  // ---------------------------------------------------------------------------

  /** v stands for x in Montgomery form. */
  ghost predicate MontForm(v: int, x: int, k: nat, m: int) {
    m > 0 && 0 <= v <= m && Cong(v, x * Pow(W32, k), m)
  }

  lemma {:induction false} FormOfProduct(r: int, u: int, v: int, x: int, y: int, k: nat, m: int)
    requires m % 2 == 1 && MontForm(u, x, k, m) && MontForm(v, y, k, m) && IsMontProduct(r, u, v, k, m)
    ensures MontForm(r, x * y, k, m)
  {
    hide Pow, Cong;
    var p := Pow(W32, k);
    CongMul(u, x * p, v, y * p, m);
    MulSwap(x, p, y, p);
    assert (x * p) * (y * p) == ((x * y) * p) * p by { FormRegroup(x, y, p); }
    CongTrans(r * p, u * v, ((x * y) * p) * p, m);
    PowW32(k);
    CancelPowTwoCong(r, (x * y) * p, 32 * k, m);
  }

  lemma {:induction false} FormRegroup(x: int, y: int, p: int)
    ensures (x * p) * (y * p) == ((x * y) * p) * p
  {
    MulSwap(x, p, y, p);
    calc {
      (x * p) * (y * p);
      (x * y) * (p * p);
      ((x * y) * p) * p;
    }
  }

  // a times R^2 is a in Montgomery form.
  lemma {:induction false} FormOfTo(r: int, a: int, rr: int, k: nat, m: int)
    requires m > 0 && m % 2 == 1 && Cong(rr, Pow(2, 64 * k), m) && IsMontProduct(r, a, rr, k, m)
    ensures MontForm(r, a, k, m)
  {
    hide Pow, Cong;
    var p := Pow(W32, k);
    PowW32(k);
    PowAdd(2, 32 * k, 32 * k);
    CongRefl(a, m);
    CongMul(a, a, rr, p * p, m);
    assert a * (p * p) == (a * p) * p;
    CongTrans(r * p, a * rr, (a * p) * p, m);
    CancelPowTwoCong(r, a * p, 32 * k, m);
  }

  // Multiplying a Montgomery form by one takes it out again.
  lemma {:induction false} FormOut(r: int, v: int, x: int, k: nat, m: int)
    requires m % 2 == 1 && MontForm(v, x, k, m) && IsMontProduct(r, v, 1, k, m)
    ensures r == x % m
  {
    hide Pow, Cong;
    var p := Pow(W32, k);
    assert v * 1 == v;
    CongTrans(r * p, v, x * p, m);
    PowW32(k);
    CancelPowTwoCong(r, x, 32 * k, m);
    CongIffMod(r, x, m);
    DivModUnique(r, 0, r, m);
  }

  method MontTo(r: BigNum, a: BigNum, c: Mont)
    requires r.Valid() && a.Valid() && c.Valid() && Outside(r, c) && a.V() <= c.m.V()
    modifies r, r.d
    ensures r.Valid() && c.Valid() && MontForm(r.V(), old(a.V()), c.k, c.m.V())
  {
    hide Val, Pow, Cong, IsMontProduct, MontForm;
    ghost var av := a.V();
    MontMul(r, a, c.rr, c);
    FormOfTo(r.V(), av, c.rr.V(), c.k, c.m.V());
  }

  method MontFrom(r: BigNum, a: BigNum, c: Mont, ghost x: int)
    requires r.Valid() && a.Valid() && c.Valid() && Outside(r, c) && MontForm(a.V(), x, c.k, c.m.V())
    modifies r, r.d
    ensures r.Valid() && c.Valid() && r.V() == x % c.m.V()
  {
    hide Val, Pow, Cong, IsMontProduct;
    ghost var av := a.V();
    var one := new BigNum();
    SetU32(one, 1);
    MontMul(r, a, one, c);
    FormOut(r.V(), av, x, c.k, c.m.V());
  }

  lemma {:induction false} PowDouble(b: int, h: nat, bit: int)
    requires 0 <= bit <= 1
    ensures Pow(b, 2 * h + bit) == Pow(b, h) * Pow(b, h) * (if bit == 1 then b else 1)
  {
    hide Pow;
    PowAdd(b, h, h);
    PowAdd(b, 2 * h, bit);
    PowOne(b);
  }

  lemma {:induction false} ShrStep(e: int, i: nat)
    requires e >= 0
    ensures 0 <= BitOf(e, i) <= 1 && Shr(e, i + 1) >= 0
    ensures Shr(e, i) == 2 * Shr(e, i + 1) + BitOf(e, i)
  {
    hide Pow;
    PowPos(2, i);
    PowSucc(2, i);
    DivTwice(e, Pow(2, i));
  }

  lemma {:induction false} ShrEnds(e: int, bits: nat)
    requires 0 <= e < Pow(2, bits)
    ensures Shr(e, bits) == 0 && Shr(e, 0) == e
  {
    hide Pow;
    PowOne(2);
    DivModUnique(e, e, 0, 1);
    DivModUnique(e, 0, e, Pow(2, bits));
  }

  // One round of square-and-multiply.
  method SquareMultiply(acc: BigNum, base: BigNum, bit: int, c: Mont, ghost a: int, ghost h: nat)
    requires acc.Valid() && base.Valid() && c.Valid() && Outside(acc, c) && acc != base && acc.d != base.d
    requires 0 <= bit <= 1 && MontForm(base.V(), a, c.k, c.m.V()) && MontForm(acc.V(), Pow(a, h), c.k, c.m.V())
    modifies acc, acc.d
    ensures acc.Valid() && c.Valid() && MontForm(acc.V(), Pow(a, 2 * h + bit), c.k, c.m.V())
  {
    hide Val, Pow, Cong, IsMontProduct, MontForm;
    ghost var p, v, bv := Pow(a, h), acc.V(), base.V();
    FormBound(v, p, c.k, c.m.V());
    FormBound(bv, a, c.k, c.m.V());
    PowDouble(a, h, bit);
    MontMul(acc, acc, acc, c);
    FormOfProduct(acc.V(), v, v, p, p, c.k, c.m.V());
    if bit != 0 {
      v := acc.V();
      FormBound(v, p * p, c.k, c.m.V());
      MontMul(acc, acc, base, c);
      FormOfProduct(acc.V(), v, bv, p * p, a, c.k, c.m.V());
    }
  }

  lemma {:induction false} FormBound(v: int, x: int, k: nat, m: int)
    requires MontForm(v, x, k, m)
    ensures 0 <= v <= m
  {
  }

  // The square-and-multiply loop, from one up to x^e.
  method RaiseTo(acc: BigNum, base: BigNum, e: BigNum, c: Mont, ghost x: int)
    requires acc.Valid() && base.Valid() && e.Valid() && c.Valid() && Outside(acc, c)
    requires acc != base && acc.d != base.d && acc != e && acc.d != e.d
    requires MontForm(base.V(), x, c.k, c.m.V()) && MontForm(acc.V(), 1, c.k, c.m.V())
    modifies acc, acc.d
    ensures acc.Valid() && c.Valid() && e.V() >= 0 && MontForm(acc.V(), Pow(x, e.V()), c.k, c.m.V())
  {
    hide Val, Pow, Cong, MontForm, Shr, BitOf;
    ghost var ev, mv := e.V(), c.m.V();
    VBound(e);
    PowOne(x);
    var i := Bits(e);
    ShrEnds(ev, i);
    while i > 0
      invariant acc.Valid() && c.Valid() && c.m.V() == mv && e.V() == ev
      invariant MontForm(base.V(), x, c.k, mv)
      invariant Shr(ev, i) >= 0 && MontForm(acc.V(), Pow(x, Shr(ev, i)), c.k, mv)
      modifies acc, acc.d
    {
      i := i - 1;
      ShrStep(ev, i);
      var bit := Bit(e, i);
      SquareMultiply(acc, base, bit, c, x, Shr(ev, i + 1));
    }
  }

  // a mod m in Montgomery form.
  method Enter(a: BigNum, c: Mont, ghost x: int) returns (base: BigNum)
    requires a.Valid() && c.Valid() && c.m.V() > 0 && x == a.V() % c.m.V()
    ensures c.Valid() && fresh(base) && fresh(base.d) && base.Valid() && MontForm(base.V(), x, c.k, c.m.V())
  {
    hide Val, Pow, Cong, MontForm, Mont.Valid;
    ContextFacts(c);
    var am := new BigNum();
    Mod(am, a, c.m);
    ModRange(a.V(), c.m.V());
    base := new BigNum();
    MontTo(base, am, c);
  }

  method EnterOne(c: Mont) returns (acc: BigNum)
    requires c.Valid()
    ensures c.Valid() && fresh(acc) && fresh(acc.d) && acc.Valid() && MontForm(acc.V(), 1, c.k, c.m.V())
  {
    hide Val, Pow, Cong, MontForm, Mont.Valid;
    ContextFacts(c);
    var one := new BigNum();
    SetU32(one, 1);
    acc := new BigNum();
    MontTo(acc, one, c);
  }

  /** r = a^e mod m, for every a and every e, including zero. */
  method ModExp(r: BigNum, a: BigNum, e: BigNum, c: Mont)
    requires r.Valid() && a.Valid() && e.Valid() && c.Valid() && Outside(r, c)
    modifies r, r.d
    ensures r.Valid() && c.Valid() && c.m.V() > 0 && old(e.V()) >= 0
    ensures r.V() == Pow(old(a.V()), old(e.V())) % c.m.V()
  {
    hide Val, Pow, Cong, MontForm, Mont.Valid;
    ContextFacts(c);
    VBound(e);
    ghost var x := a.V() % c.m.V();
    PowOfMod(a.V(), e.V(), c.m.V());
    var base := Enter(a, c, x);
    var acc := EnterOne(c);
    RaiseTo(acc, base, e, c, x);
    MontFrom(r, acc, c, Pow(x, e.V()));
  }

  lemma {:induction false} ContextFacts(c: Mont)
    requires c.Valid()
    ensures c.m.Valid() && c.rr.Valid() && c.m.V() > 0
  {
  }

  lemma {:induction false} ModRange(a: int, m: int)
    requires m > 0
    ensures 0 <= a % m < m
  {
  }

  lemma {:induction false} PowOfMod(a: int, e: nat, m: int)
    requires m > 0
    ensures Pow(a % m, e) % m == Pow(a, e) % m
  {
    hide Pow, Cong;
    CongMod(a, m);
    CongPow(a % m, a, e, m);
    CongIffMod(Pow(a % m, e), Pow(a, e), m);
  }
}
