/**
 Fixed-width big integers (src/crypto/bn.c): a limb count and 144 limbs of 32 bits.
 Limbs at or above the count are unspecified, as in the source; operands may alias the
 result wherever the source lets them.
 */
module Bn {
  import opened Words
  import opened ModArith
  import opened Limbs

  const MAX_LIMBS: nat := 144

  class BigNum {
    var n: nat
    const d: array<u32>

    ghost predicate Valid()
      reads this, d
    {
      d.Length == MAX_LIMBS && n <= MAX_LIMBS
    }

    /** The limbs that count. */
    ghost function Limbs(): seq<int>
      requires Valid()
      reads this, d
    {
      d[..n]
    }

    /** The number represented. */
    ghost function V(): int
      requires Valid()
      reads this, d
    {
      Val(Limbs(), W32)
    }

    ghost predicate Trimmed()
      requires Valid()
      reads this, d
    {
      n == 0 || d[n - 1] != 0
    }

    constructor ()
      ensures Valid() && n == 0 && fresh(d)
    {
      d := new u32[MAX_LIMBS];
      n := 0;
    }
  }

  /** Two numbers are one object, or share no storage. */
  ghost predicate Apart(x: BigNum, y: BigNum) {
    x == y || x.d != y.d
  }

  lemma {:induction false} VBound(x: BigNum)
    requires x.Valid()
    ensures 0 <= x.V() < Pow(W32, x.n) <= Pow(W32, MAX_LIMBS)
  {
    PowFits(x.Limbs());
  }

  method SetU32(a: BigNum, v: u32)
    requires a.Valid()
    modifies a, a.d
    ensures a.Valid() && a.Trimmed() && a.V() == v
  {
    a.d[0] := v;
    a.n := if v != 0 then 1 else 0;
    if v != 0 {
      assert a.Limbs() == [v];
      ValSnoc([], v, W32);
      assert [] + [v] == [v];
    }
  }

  method Copy(r: BigNum, a: BigNum)
    requires r.Valid() && a.Valid() && Apart(r, a)
    modifies r, r.d
    ensures r.Valid() && r.n == old(a.n) && r.Limbs() == old(a.Limbs())
    ensures r.V() == old(a.V()) && (r.Trimmed() <==> old(a.Trimmed()))
  {
    if r == a {
      return;
    }
    r.n := a.n;
    forall i | 0 <= i < a.n {
      r.d[i] := a.d[i];
    }
    assert r.Limbs() == old(a.Limbs());
  }

  /** Drops leading zero limbs; the number stays the same. */
  method Trim(a: BigNum)
    requires a.Valid()
    modifies a`n
    ensures a.Valid() && a.Trimmed() && a.V() == old(a.V()) && a.n <= old(a.n)
  {
    while a.n > 0 && a.d[a.n - 1] == 0
      invariant a.n <= old(a.n)
      invariant a.Valid() && a.V() == old(a.V())
    {
      assert a.d[..a.n][..a.n - 1] == a.d[..a.n - 1];
      a.n := a.n - 1;
    }
  }

  /** -1, 0 or 1 as a is below, equal to or above b. */
  method Cmp(a: BigNum, b: BigNum) returns (c: int)
    requires a.Valid() && b.Valid()
    ensures -1 <= c <= 1
    ensures c < 0 <==> a.V() < b.V()
    ensures c > 0 <==> a.V() > b.V()
  {
    hide Val, Pow;
    var n := if a.n > b.n then a.n else b.n;
    ghost var x, y := Fit(a.Limbs(), n), Fit(b.Limbs(), n);
    ValFit(a.Limbs(), n, W32);
    ValFit(b.Limbs(), n, W32);
    var i := n;
    while i > 0
      invariant 0 <= i <= n
      invariant x[i..] == y[i..]
    {
      i := i - 1;
      var p := if i < a.n then a.d[i] else 0;
      var q := if i < b.n then b.d[i] else 0;
      assert p == x[i] && q == y[i];
      if p != q {
        if p < q {
          ValOrder(x, y, i, W32);
          return -1;
        } else {
          ValOrder(y, x, i, W32);
          return 1;
        }
      }
      assert x[i..] == [x[i]] + x[i + 1..] && y[i..] == [y[i]] + y[i + 1..];
    }
    assert x[0..] == x && y[0..] == y;
    return 0;
  }

  // One column of a schoolbook addition.
  lemma {:induction false} SumStep(t: seq<int>, x: seq<int>, y: seq<int>, i: nat, c: int, s: int)
    requires i == |t| && i < |x| && i < |y|
    requires Val(t, W32) + c * Pow(W32, i) == Val(x[..i], W32) + Val(y[..i], W32)
    requires s == c + x[i] + y[i]
    ensures Val(t + [s % W32], W32) + (s / W32) * Pow(W32, i + 1) == Val(x[..i + 1], W32) + Val(y[..i + 1], W32)
  {
    hide Val, Pow;
    var p, d, c' := Pow(W32, i), s % W32, s / W32;
    ValSnoc(t, d, W32);
    ValPrefix(x, i, W32);
    ValPrefix(y, i, W32);
    PowSucc(W32, i);
    calc {
      d * p + c' * (W32 * p);
      d * p + (c' * W32) * p;
      (d + c' * W32) * p;
      (c + x[i] + y[i]) * p;
      c * p + x[i] * p + y[i] * p;
    }
  }

  /**
   r = a + b.  Exact while both operands have fewer than 144 limbs; at 144 the loop
   stops one limb short and the top limbs of both operands are left out of the sum.
   */
  method Add(r: BigNum, a: BigNum, b: BigNum)
    requires r.Valid() && a.Valid() && b.Valid() && Apart(r, a) && Apart(r, b)
    modifies r, r.d
    ensures r.Valid() && r.Trimmed()
    ensures old(a.n) < MAX_LIMBS && old(b.n) < MAX_LIMBS ==> r.V() == old(a.V()) + old(b.V())
    ensures Pow(W32, MAX_LIMBS - 1) > 0
    ensures r.V() == old(a.V()) % Pow(W32, MAX_LIMBS - 1) + old(b.V()) % Pow(W32, MAX_LIMBS - 1)
  {
    hide Val, Pow, Fit;
    var an, bn := a.n, b.n;
    var n := if an > bn then an else bn;
    if n >= MAX_LIMBS {
      n := MAX_LIMBS - 1;
    }
    ghost var x, y := Fit(a.Limbs(), n), Fit(b.Limbs(), n);
    AddOperands(a.Limbs(), b.Limbs(), n);
    var carry: u64 := 0;
    var i := 0;
    ValEmpty(r.d[..0], W32);
    ValEmpty(x[..0], W32);
    ValEmpty(y[..0], W32);
    while i < n
      invariant 0 <= i <= n && carry <= 1
      invariant forall j :: i <= j < n ==> x[j] == if j < an then a.d[j] else 0
      invariant forall j :: i <= j < n ==> y[j] == if j < bn then b.d[j] else 0
      invariant Val(r.d[..i], W32) + carry * Pow(W32, i) == Val(x[..i], W32) + Val(y[..i], W32)
      modifies r.d
    {
      var s: u64 := carry + (if i < an then a.d[i] else 0) + (if i < bn then b.d[i] else 0);
      ghost var before := r.d[..i];
      r.d[i] := s % W32;
      assert r.d[..i + 1] == before + [s % W32];
      SumStep(before, x, y, i, carry, s);
      carry := s / W32;
      i := i + 1;
    }
    assert x[..n] == x && y[..n] == y;
    if carry != 0 {
      ghost var before := r.d[..n];
      r.d[n] := carry;
      assert r.d[..n + 1] == before + [carry];
      ValSnoc(before, carry, W32);
      n := n + 1;
    }
    r.n := n;
    Trim(r);
  }

  lemma {:induction false} AddOperands(x: seq<int>, y: seq<int>, n: nat)
    requires |x| <= MAX_LIMBS && |y| <= MAX_LIMBS && Digits(x, W32) && Digits(y, W32)
    requires n == MAX_LIMBS - 1 || (|x| <= n && |y| <= n && n < MAX_LIMBS)
    ensures Pow(W32, MAX_LIMBS - 1) > 0
    ensures Val(Fit(x, n), W32) == Val(x, W32) % Pow(W32, MAX_LIMBS - 1)
    ensures Val(Fit(y, n), W32) == Val(y, W32) % Pow(W32, MAX_LIMBS - 1)
    ensures |x| <= n ==> Val(Fit(x, n), W32) == Val(x, W32)
    ensures |y| <= n ==> Val(Fit(y, n), W32) == Val(y, W32)
  {
    ValFitMod(x, MAX_LIMBS - 1, W32);
    ValFitMod(y, MAX_LIMBS - 1, W32);
    if |x| <= n {
      ValFit(x, n, W32);
      ValFit(x, MAX_LIMBS - 1, W32);
    }
    if |y| <= n {
      ValFit(y, n, W32);
      ValFit(y, MAX_LIMBS - 1, W32);
    }
  }

  /**
   When is the sum exact?  Given what Add returns, r, it is a + b exactly when both
   operands fit in 143 limbs.
   */
  lemma {:induction false} AddExactIff(a: int, b: int, r: int)
    requires a >= 0 && b >= 0 && Pow(W32, MAX_LIMBS - 1) > 0
    requires r == a % Pow(W32, MAX_LIMBS - 1) + b % Pow(W32, MAX_LIMBS - 1)
    ensures r == a + b <==> a < Pow(W32, MAX_LIMBS - 1) && b < Pow(W32, MAX_LIMBS - 1)
  {
    var p := Pow(W32, MAX_LIMBS - 1);
    ModBelow(a, p);
    ModBelow(b, p);
  }

  /** The top limb lost: 2^(32*143) plus zero comes out as zero. */
  method AddLosesTop() returns (a: BigNum, b: BigNum, r: BigNum)
    ensures a.Valid() && b.Valid() && r.Valid()
    ensures a.V() == Pow(W32, MAX_LIMBS - 1) && b.V() == 0 && r.V() == 0
  {
    hide Val, Pow;
    a := new BigNum();
    b := new BigNum();
    r := new BigNum();
    SetU32(b, 0);
    forall i | 0 <= i < MAX_LIMBS {
      a.d[i] := if i == MAX_LIMBS - 1 then 1 else 0;
    }
    a.n := MAX_LIMBS;
    ghost var low := a.d[..MAX_LIMBS - 1];
    assert a.Limbs() == low + [1];
    ValZeros(low, W32);
    ValSnoc(low, 1, W32);
    Add(r, a, b);
    DivModUnique(Pow(W32, MAX_LIMBS - 1), 1, 0, Pow(W32, MAX_LIMBS - 1));
    DivModUnique(0, 0, 0, Pow(W32, MAX_LIMBS - 1));
  }

  lemma {:induction false} ModBelow(a: int, p: int)
    requires a >= 0 && p > 0
    ensures a % p <= a && (a % p == a <==> a < p)
  {
    var q := a / p;
    assert a == q * p + a % p;
    if a < p {
      DivModUnique(a, 0, a, p);
    } else if q < 1 {
      MulMono(q, 0, p);
    } else {
      MulMono(1, q, p);
    }
    MulMono(0, if q >= 0 then q else 0, p);
    if q < 0 {
      MulMono(q, -1, p);
    }
  }

  // One column of a schoolbook subtraction.
  lemma {:induction false} DiffStep(t: seq<int>, x: seq<int>, y: seq<int>, i: nat, c: int, d: int, c': int)
    requires i == |t| && i < |x| && i < |y|
    requires Val(t, W32) == Val(x[..i], W32) - Val(y[..i], W32) + c * Pow(W32, i)
    requires d == x[i] - y[i] - c + c' * W32
    ensures Val(t + [d], W32) == Val(x[..i + 1], W32) - Val(y[..i + 1], W32) + c' * Pow(W32, i + 1)
  {
    hide Val, Pow;
    var p := Pow(W32, i);
    ValSnoc(t, d, W32);
    ValPrefix(x, i, W32);
    ValPrefix(y, i, W32);
    PowSucc(W32, i);
    calc {
      d * p;
      (x[i] - y[i] - c + c' * W32) * p;
      x[i] * p - y[i] * p - c * p + (c' * W32) * p;
      x[i] * p - y[i] * p - c * p + c' * (W32 * p);
    }
  }

  /** r = a - b; below zero it wraps modulo 2^32 to the limb count of the longer operand. */
  method Sub(r: BigNum, a: BigNum, b: BigNum)
    requires r.Valid() && a.Valid() && b.Valid() && Apart(r, a) && Apart(r, b)
    modifies r, r.d
    ensures r.Valid() && r.Trimmed() && r.n <= (if old(a.n) > old(b.n) then old(a.n) else old(b.n))
    ensures old(a.V()) >= old(b.V()) ==> r.V() == old(a.V()) - old(b.V())
    ensures old(a.V()) < old(b.V()) ==>
              r.V() == old(a.V()) - old(b.V()) + Pow(W32, if old(a.n) > old(b.n) then old(a.n) else old(b.n))
  {
    hide Val, Pow, Fit, Sub64, SignBit;
    var an, bn := a.n, b.n;
    var n := if an > bn then an else bn;
    ghost var x, y := Fit(a.Limbs(), n), Fit(b.Limbs(), n);
    ValFit(a.Limbs(), n, W32);
    ValFit(b.Limbs(), n, W32);
    var borrow: u32 := 0;
    var i := 0;
    ValEmpty(r.d[..0], W32);
    ValEmpty(x[..0], W32);
    ValEmpty(y[..0], W32);
    while i < n
      invariant 0 <= i <= n && borrow <= 1
      invariant forall j :: i <= j < n ==> x[j] == if j < an then a.d[j] else 0
      invariant forall j :: i <= j < n ==> y[j] == if j < bn then b.d[j] else 0
      invariant Val(r.d[..i], W32) == Val(x[..i], W32) - Val(y[..i], W32) + borrow * Pow(W32, i)
      modifies r.d
    {
      var p: u64 := if i < an then a.d[i] else 0;
      var q: u64 := if i < bn then b.d[i] else 0;
      var diff := Sub64(p, q, borrow);
      var low, out := diff % W32, SignBit(diff);
      BorrowOut(p, q, borrow);
      ghost var before := r.d[..i];
      r.d[i] := low;
      assert r.d[..i + 1] == before + [low];
      DiffStep(before, x, y, i, borrow, low, out);
      borrow := out;
      i := i + 1;
    }
    assert x[..n] == x && y[..n] == y;
    BorrowLast(x, y, r.d[..n], borrow);
    r.n := n;
    Trim(r);
  }

  // A borrow out of the top limb means the difference was negative.
  lemma {:induction false} BorrowLast(x: seq<int>, y: seq<int>, t: seq<int>, c: int)
    requires |x| == |y| == |t| && Digits(x, W32) && Digits(y, W32) && Digits(t, W32) && 0 <= c <= 1
    requires Val(t, W32) == Val(x, W32) - Val(y, W32) + c * Pow(W32, |t|)
    ensures Val(x, W32) >= Val(y, W32) ==> Val(t, W32) == Val(x, W32) - Val(y, W32)
    ensures Val(x, W32) < Val(y, W32) ==> Val(t, W32) == Val(x, W32) - Val(y, W32) + Pow(W32, |t|)
  {
    hide Val, Pow;
    ValBound(x, W32);
    ValBound(y, W32);
    ValBound(t, W32);
  }

  /** x - y - c in 64 bits, wrapping below zero. */
  function Sub64(x: u64, y: u64, c: u64): u64 {
    (x - y - c) % W64
  }

  function SignBit(x: u64): u64 {
    x / 0x8000_0000_0000_0000
  }

  // The 64-bit difference of two 32-bit limbs and a borrow: low word and sign bit.
  lemma {:induction false} BorrowOut(p: u32, q: u32, c: u32)
    requires c <= 1
    ensures SignBit(Sub64(p, q, c)) == if p < q + c then 1 else 0
    ensures Sub64(p, q, c) % W32 == p - q - c + (if p < q + c then W32 else 0)
  {
    if p < q + c {
      assert Sub64(p, q, c) == p - q - c + W64;
    } else {
      assert Sub64(p, q, c) == p - q - c;
    }
  }

  // One limb of a left shift by one bit.
  lemma {:induction false} ShiftStep(t: seq<int>, x: seq<int>, i: nat, c: int, d: int, c': int)
    requires i == |t| && i < |x|
    requires Val(t, W32) + c * Pow(W32, i) == 2 * Val(x[..i], W32)
    requires d + c' * W32 == 2 * x[i] + c
    ensures Val(t + [d], W32) + c' * Pow(W32, i + 1) == 2 * Val(x[..i + 1], W32)
  {
    hide Val, Pow;
    var p := Pow(W32, i);
    ValSnoc(t, d, W32);
    ValPrefix(x, i, W32);
    PowSucc(W32, i);
    calc {
      d * p + c' * (W32 * p);
      (d + c' * W32) * p;
      (2 * x[i] + c) * p;
      2 * (x[i] * p) + c * p;
    }
  }

  /** What is left of v in 144 limbs. */
  ghost function Wrap(v: int): int {
    PowPos(W32, MAX_LIMBS);
    v % Pow(W32, MAX_LIMBS)
  }

  /** Doubling; only a bit shifted out of the 144th limb is lost. */
  method Shl1(a: BigNum)
    requires a.Valid()
    modifies a, a.d
    ensures a.Valid() && a.V() == Wrap(2 * old(a.V()))
    ensures 2 * old(a.V()) < Pow(W32, MAX_LIMBS) ==> a.V() == 2 * old(a.V())
    ensures old(a.n) <= a.n <= old(a.n) + 1
  {
    hide Val, Pow, Wrap;
    ghost var x := a.Limbs();
    var carry: u32 := 0;
    var i := 0;
    ValEmpty(a.d[..0], W32);
    ValEmpty(x[..0], W32);
    while i < a.n
      invariant 0 <= i <= a.n && carry <= 1
      invariant forall j :: i <= j < a.n ==> a.d[j] == x[j]
      invariant Val(a.d[..i], W32) + carry * Pow(W32, i) == 2 * Val(x[..i], W32)
      modifies a.d
    {
      var next := a.d[i] / 0x8000_0000;
      var low := (a.d[i] * 2) % W32 + carry;
      ghost var before := a.d[..i];
      a.d[i] := low;
      assert a.d[..i + 1] == before + [low];
      ShiftStep(before, x, i, carry, low, next);
      carry := next;
      i := i + 1;
    }
    assert x[..a.n] == x;
    ghost var low := a.d[..a.n];
    ShiftTop(x, low, carry);
    if carry != 0 && a.n < MAX_LIMBS {
      a.d[a.n] := carry;
      a.n := a.n + 1;
      assert a.Limbs() == low + [carry];
    } else {
      assert a.Limbs() == low;
    }
  }

  lemma {:induction false} ShiftTop(x: seq<int>, low: seq<int>, c: int)
    requires |x| == |low| <= MAX_LIMBS && Digits(low, W32) && 0 <= c <= 1
    requires Val(low, W32) + c * Pow(W32, |x|) == 2 * Val(x, W32)
    ensures |x| < MAX_LIMBS ==>
              Val(low + [c], W32) == 2 * Val(x, W32) == Wrap(2 * Val(x, W32))
    ensures c == 0 || |x| == MAX_LIMBS ==> Val(low, W32) == Wrap(2 * Val(x, W32))
    ensures 2 * Val(x, W32) < Pow(W32, MAX_LIMBS) && (c == 0 || |x| == MAX_LIMBS) ==> Val(low, W32) == 2 * Val(x, W32)
  {
    hide Val, Pow, Wrap, Cong;
    var p := Pow(W32, MAX_LIMBS);
    PowFits(low);
    if |x| < MAX_LIMBS {
      ValSnoc(low, c, W32);
      PowFits(low + [c]);
      CongRefl(Val(low + [c], W32), p);
      WrapCong(Val(low + [c], W32), Val(low + [c], W32));
    }
    if c == 0 || |x| == MAX_LIMBS {
      CongFromQuotient(Val(low, W32), 2 * Val(x, W32), -c, p);
      WrapCong(Val(low, W32), 2 * Val(x, W32));
    }
  }

  /** The bit length of one word. */
  method WordBits(v: u32) returns (b: nat)
    ensures v < Pow(2, b) && (v > 0 ==> b > 0 && Pow(2, b - 1) <= v)
    ensures v == 0 ==> b == 0
  {
    b := 0;
    var w := v;
    while w != 0
      invariant w >= 0
      invariant w * Pow(2, b) <= v < (w + 1) * Pow(2, b)
      invariant w == 0 ==> (b > 0 ==> Pow(2, b - 1) <= v)
      invariant v == 0 ==> b == 0
      invariant v > 0 && w == 0 ==> b > 0
      decreases w
    {
      WordBitsStep(v, w, b);
      b := b + 1;
      w := w / 2;
    }
  }

  lemma {:induction false} WordBitsStep(v: int, w: int, b: nat)
    requires w > 0 && w * Pow(2, b) <= v < (w + 1) * Pow(2, b)
    ensures (w / 2) * Pow(2, b + 1) <= v < (w / 2 + 1) * Pow(2, b + 1)
    ensures w / 2 == 0 ==> Pow(2, b) <= v
  {
    var h, p := w / 2, Pow(2, b);
    PowPos(2, b);
    MulMono(2 * h, w, p);
    MulMono(w + 1, 2 * h + 2, p);
    MulMono(1, w, p);
    assert h * (2 * p) == (2 * h) * p;
    assert (h + 1) * (2 * p) == (2 * h + 2) * p;
  }

  /** The bit length: the number lies in [2^(bits-1), 2^bits), and zero has none. */
  method Bits(a: BigNum) returns (bits: nat)
    requires a.Valid()
    ensures a.V() < Pow(2, bits)
    ensures bits > 0 ==> Pow(2, bits - 1) <= a.V()
    ensures bits <= 32 * MAX_LIMBS
  {
    hide Val, Pow;
    var i := a.n;
    while i > 0 && a.d[i - 1] == 0
      invariant 0 <= i <= a.n
      invariant Val(a.d[..i], W32) == a.V()
    {
      ValPrefix(a.d[..], i - 1, W32);
      assert a.d[..][..i] == a.d[..i] && a.d[..][..i - 1] == a.d[..i - 1];
      i := i - 1;
    }
    if i == 0 {
      ValEmpty(a.d[..0], W32);
      PowPos(2, 0);
      return 0;
    }
    var v := a.d[i - 1];
    var b := WordBits(v);
    bits := (i - 1) * 32 + b;
    ValPrefix(a.d[..], i - 1, W32);
    assert a.d[..][..i] == a.d[..i] && a.d[..][..i - 1] == a.d[..i - 1];
    ValBound(a.d[..i - 1], W32);
    BitsTop(Val(a.d[..i - 1], W32), v, i - 1, b);
  }

  lemma {:induction false} BitsTop(low: int, v: u32, k: nat, b: nat)
    requires 0 <= low < Pow(W32, k) && v > 0 && b > 0 && Pow(2, b - 1) <= v < Pow(2, b)
    ensures Pow(2, 32 * k + b - 1) <= low + v * Pow(W32, k) < Pow(2, 32 * k + b)
    ensures b <= 32
  {
    hide Pow;
    PowW32(k);
    PowAdd(2, 32 * k, b);
    PowAdd(2, 32 * k, b - 1);
    var p := Pow(W32, k);
    MulMono(Pow(2, b - 1), v, p);
    MulMono(v + 1, Pow(2, b), p);
    assert (v + 1) * p == v * p + p;
    if b > 32 {
      PowTwo32();
      PowAdd(2, 32, b - 1 - 32);
      PowPos(2, b - 33);
      MulMono(1, Pow(2, b - 33), W32);
    }
  }

  /** v shifted right by i bits. */
  function Shr(v: int, i: nat): int {
    PowPos(2, i);
    v / Pow(2, i)
  }

  function BitOf(v: int, i: nat): int {
    Shr(v, i) % 2
  }

  /** Bit i of the number. */
  method Bit(a: BigNum, i: nat) returns (bit: int)
    requires a.Valid()
    ensures bit == BitOf(a.V(), i)
  {
    hide Val, Pow;
    var limb := i / 32;
    ghost var s := a.Limbs();
    PowPos(2, i);
    if limb >= a.n {
      VBound(a);
      PowW32(a.n);
      PowAdd(2, 32 * a.n, i - 32 * a.n);
      PowPos(2, i - 32 * a.n);
      MulMono(1, Pow(2, i - 32 * a.n), Pow(2, 32 * a.n));
      DivModUnique(a.V(), 0, a.V(), Pow(2, i));
      return 0;
    }
    PowPos(2, i % 32);
    bit := (a.d[limb] / Pow(2, i % 32)) % 2;
    BitOfLimb(s, limb, i % 32);
  }

  lemma {:induction false} BitOfLimb(s: seq<int>, k: nat, j: nat)
    requires k < |s| && j < 32 && Digits(s, W32)
    ensures Pow(2, j) > 0 && Pow(2, 32 * k + j) > 0
    ensures (Val(s, W32) / Pow(2, 32 * k + j)) % 2 == (s[k] / Pow(2, j)) % 2
  {
    hide Val, Pow;
    var low, high := Val(s[..k], W32), Val(s[k + 1..], W32);
    var p, q := Pow(2, 32 * k), Pow(2, j);
    PowPos(2, 32 * k);
    PowPos(2, j);
    PowPos(2, 31 - j);
    PowW32(k);
    PowAdd(2, 32 * k, j);
    MulPos(p, q);
    ValSplit(s, k, W32);
    ValSplit(s[k..], 1, W32);
    assert s[k..][..1] == [] + [s[k]] && s[k..][1..] == s[k + 1..];
    ValSnoc([], s[k], W32);
    ValEmpty([], W32);
    PowOne(W32);
    ValBound(s[..k], W32);
    // Val(s) == low + p * (s[k] + W32 * high), and W32 == 2 * (2^(31-j) * 2^j).
    assert W32 == 2 * (Pow(2, 31 - j) * q) by {
      PowTwo32();
      PowAdd(2, 31 - j, j);
      PowSucc(2, 31);
    }
    var e := Pow(2, 31 - j);
    var x, y := s[k] / q, s[k] % q;
    BitSplit(Val(s, W32), low, p, q, x, y, e, high);
  }

  lemma {:induction false} PowOne(b: int)
    ensures Pow(b, 0) == 1 && Pow(b, 1) == b
  {
  }

  lemma {:induction false} BitSplit(v: int, low: int, p: int, q: int, x: int, y: int, e: int, high: int)
    requires p > 0 && q > 0 && 0 <= low < p && 0 <= y < q && p * q > 0
    requires v == low + p * (x * q + y + (2 * (e * q)) * high)
    ensures (v / (p * q)) % 2 == x % 2
  {
    var z, h := x + 2 * (e * high), e * high;
    calc {
      x * q + (2 * (e * q)) * high;
      { MulAssoc3(e, q, high); }
      x * q + (2 * h) * q;
      z * q;
    }
    DivProduct(v, low, p, q, z, y);
  }

  lemma {:induction false} DivProduct(v: int, low: int, p: int, q: int, z: int, y: int)
    requires p > 0 && q > 0 && 0 <= low < p && 0 <= y < q && p * q > 0
    requires v == low + p * (z * q + y)
    ensures v / (p * q) == z
  {
    var r := low + p * y;
    calc {
      v;
      low + p * (z * q) + p * y;
      { MulMiddle(p, z, q); }
      z * (p * q) + r;
    }
    MulMono(y, q - 1, p);
    MulMono(0, y, p);
    DivModUnique(v, z, r, p * q);
  }

  lemma {:induction false} MulAssoc3(e: int, q: int, h: int)
    ensures (2 * (e * q)) * h == (2 * (e * h)) * q
  {
    calc {
      (2 * (e * q)) * h;
      2 * ((e * q) * h);
      2 * (e * (q * h));
      2 * (e * (h * q));
      2 * ((e * h) * q);
    }
  }

  /** What the remainder holds once all bits of v from i up have been taken in. */
  ghost function RemTop(v: int, i: nat, m: int): int
    requires m > 0
  {
    Shr(v, i) % m
  }

  lemma {:induction false} RemTopEnds(v: int, bits: nat, m: int)
    requires m > 0 && 0 <= v < Pow(2, bits)
    ensures RemTop(v, bits, m) == 0
    ensures RemTop(v, 0, m) == v % m
  {
    hide Pow;
    PowOne(2);
    DivModUnique(v, v, 0, 1);
    DivModUnique(v, 0, v, Pow(2, bits));
    DivModUnique(0, 0, 0, m);
  }

  // Taking one more bit of v into the remainder.
  lemma {:induction false} RemTopStep(v: int, i: nat, m: int, rem: int)
    requires v >= 0 && m > 0 && rem == RemTop(v, i + 1, m)
    ensures 0 <= rem < m && 0 <= BitOf(v, i) <= 1 && 0 <= 2 * rem + BitOf(v, i) <= v
    ensures 2 * rem + BitOf(v, i) >= m ==> 2 * rem + BitOf(v, i) - m == RemTop(v, i, m)
    ensures 2 * rem + BitOf(v, i) < m ==> 2 * rem + BitOf(v, i) == RemTop(v, i, m)
  {
    hide Pow;
    PowPos(2, i);
    PowSucc(2, i);
    DivTwice(v, Pow(2, i));
    var h := Shr(v, i + 1);
    ModDouble(Shr(v, i), h, m, h / m, rem, BitOf(v, i));
  }

  lemma {:induction false} ModDouble(f: int, h: int, m: int, q: int, rem: int, bit: int)
    requires m > 0 && h == q * m + rem && 0 <= rem < m && 0 <= bit <= 1 && f == 2 * h + bit && h >= 0
    ensures 0 <= 2 * rem + bit <= f
    ensures 2 * rem + bit >= m ==> 2 * rem + bit - m == f % m
    ensures 2 * rem + bit < m ==> 2 * rem + bit == f % m
  {
    var v := 2 * rem + bit;
    assert f == (2 * q) * m + v;
    if v >= m {
      assert (2 * q + 1) * m == (2 * q) * m + m;
      DivModUnique(f, 2 * q + 1, v - m, m);
    } else {
      DivModUnique(f, 2 * q, v, m);
    }
    MulAtLeast(q, m);
    MulMono(0, if q >= 0 then q else 0, m);
  }

  lemma {:induction false} DivTwice(a: int, p: int)
    requires a >= 0 && p > 0
    ensures a / p == 2 * (a / (2 * p)) + (a / p) % 2
    ensures 0 <= a / p <= a && a / (2 * p) >= 0
  {
    HalfQuotient(a, p, a / p, a % p);
  }

  lemma {:induction false} HalfQuotient(a: int, p: int, f: int, r: int)
    requires a >= 0 && p > 0 && a == f * p + r && 0 <= r < p
    ensures a / (2 * p) == f / 2 && 0 <= f <= a
  {
    var h, b := f / 2, f % 2;
    assert f == 2 * h + b;
    MulMono(b, 1, p);
    MulMono(0, b, p);
    calc {
      a;
      (2 * h + b) * p + r;
      h * (2 * p) + (b * p + r);
    }
    DivModUnique(a, h, b * p + r, 2 * p);
    MulAtLeast(f, p);
    if f >= 0 {
      MulMono(1, p, f);
    }
  }

  // Setting the lowest bit of an even number.
  method SetLowBit(a: BigNum)
    requires a.Valid() && a.V() % 2 == 0
    modifies a, a.d
    ensures a.Valid() && a.V() == old(a.V()) + 1
  {
    hide Val, Pow;
    ghost var s := a.Limbs();
    ValSnoc([], 1, W32);
    ValEmpty([], W32);
    PowOne(W32);
    if a.n == 0 {
      a.d[0] := 1;
      a.n := 1;
      assert a.Limbs() == [] + [1];
      ValEmpty(s, W32);
    } else {
      LowLimb(s);
      var v := a.d[0];
      a.d[0] := if v % 2 == 0 then v + 1 else v;
      LowLimb(a.Limbs());
      assert a.Limbs()[1..] == s[1..];
    }
  }

  lemma {:induction false} LowLimb(s: seq<int>)
    requires |s| > 0
    ensures Val(s, W32) == s[0] + W32 * Val(s[1..], W32)
    ensures s[0] % 2 == Val(s, W32) % 2
  {
    hide Val, Pow;
    ValSplit(s, 1, W32);
    assert s[..1] == [] + [s[0]];
    ValSnoc([], s[0], W32);
    ValEmpty([], W32);
    PowOne(W32);
    EvenPart(s[0], Val(s[1..], W32));
  }

  lemma {:induction false} EvenPart(x: int, h: int)
    ensures (x + W32 * h) % 2 == x % 2
  {
    var k := 0x8000_0000 * h;
    assert x + W32 * h == x + 2 * k;
  }

  // One round of Mod: shift bit i of a into the remainder, then subtract m if it fits.
  method ShiftIn(rem: BigNum, a: BigNum, m: BigNum, i: nat)
    requires rem.Valid() && a.Valid() && m.Valid() && m.V() > 0
    requires rem != a && rem != m && rem.d != a.d && rem.d != m.d
    requires rem.V() == RemTop(a.V(), i + 1, m.V())
    modifies rem, rem.d
    ensures rem.Valid() && rem.V() == RemTop(a.V(), i, m.V())
  {
    hide Val, Pow, RemTop, BitOf, Wrap;
    ghost var av, mv, r0 := a.V(), m.V(), rem.V();
    VBound(a);
    RemTopStep(av, i, mv, r0);
    Shl1(rem);
    assert rem.V() == 2 * r0 && a.V() == av && m.V() == mv;
    var bit := Bit(a, i);
    if bit != 0 {
      SetLowBit(rem);
    }
    assert rem.V() == 2 * r0 + bit && m.V() == mv;
    var d := Cmp(rem, m);
    if d >= 0 {
      Sub(rem, rem, m);
    }
  }

  /** r = a mod m, the true remainder, for every a and every positive m. */
  method Mod(r: BigNum, a: BigNum, m: BigNum)
    requires r.Valid() && a.Valid() && m.Valid() && Apart(r, a) && m.V() > 0
    modifies r, r.d
    ensures r.Valid() && r.V() == old(a.V()) % old(m.V())
  {
    hide Val, Pow, RemTop, BitOf, Wrap;
    ghost var av, mv := a.V(), m.V();
    VBound(a);
    var c := Cmp(a, m);
    if c < 0 {
      DivModUnique(av, 0, av, mv);
      Copy(r, a);
      return;
    }
    var rem := Divide(a, m);
    Trim(rem);
    Copy(r, rem);
  }

  // The division loop, from the top bit down.
  method Divide(a: BigNum, m: BigNum) returns (rem: BigNum)
    requires a.Valid() && m.Valid() && m.V() > 0
    ensures fresh(rem) && fresh(rem.d) && rem.Valid() && rem.V() == a.V() % m.V()
  {
    hide Val, Pow, RemTop, BitOf, Wrap;
    ghost var av, mv := a.V(), m.V();
    VBound(a);
    rem := new BigNum();
    SetU32(rem, 0);
    var i := Bits(a);
    RemTopEnds(av, i, mv);
    while i > 0
      invariant rem.Valid() && fresh(rem) && fresh(rem.d)
      invariant rem.V() == RemTop(av, i, mv)
      modifies rem, rem.d
    {
      i := i - 1;
      ShiftIn(rem, a, m, i);
    }
  }

  // The row so far: j limbs of b have been added in, and c is still to be carried.
  ghost predicate RowSum(low: seq<int>, c: int, u: seq<int>, b: seq<int>, i: nat, j: nat, ai: int)
    requires i + j <= |u| && j <= |b|
  {
    Val(low, W32) + c * Pow(W32, i + j) == Val(u[..i + j], W32) + (ai * Pow(W32, i)) * Val(b[..j], W32)
  }

  // One column of one row of a schoolbook multiplication.
  lemma {:induction false} MulStep(t: seq<int>, u: seq<int>, b: seq<int>, i: nat, j: nat, ai: int, c: int, s: int)
    requires |t| == i + j && i + j < |u| && j < |b|
    requires RowSum(t, c, u, b, i, j, ai) && s == ai * b[j] + u[i + j] + c
    ensures RowSum(t + [s % W32], s / W32, u, b, i, j + 1, ai)
  {
    hide Val, Pow;
    var d, c', p, q, x := s % W32, s / W32, Pow(W32, i + j), Pow(W32, i), Pow(W32, j);
    ValSnoc(t, d, W32);
    ValPrefix(u, i + j, W32);
    ValPrefix(b, j, W32);
    PowSucc(W32, i + j);
    PowAdd(W32, i, j);
    MulColumn(d, c', p, q, x, ai, b[j], u[i + j], c, Val(b[..j], W32));
  }

  lemma {:induction false} MulColumn(d: int, c': int, p: int, q: int, x: int, ai: int, bj: int, ti: int, c: int, b: int)
    requires d + c' * W32 == ai * bj + ti + c && p == q * x
    ensures d * p + c' * (W32 * p) == c * p + ti * p + (ai * q) * (b + bj * x) - (ai * q) * b
  {
    calc {
      d * p + c' * (W32 * p);
      (d + c' * W32) * p;
      (ai * bj + ti + c) * p;
      c * p + ti * p + (ai * bj) * (q * x);
      { MulSwap(ai, bj, q, x); }
      c * p + ti * p + (ai * q) * (bj * x);
      { assert (ai * q) * (b + bj * x) == (ai * q) * b + (ai * q) * (bj * x); }
      c * p + ti * p + (ai * q) * (b + bj * x) - (ai * q) * b;
    }
  }

  // Adds ai * b into t, i limbs up, keeping only what fits in 144 limbs.
  method MulRow(t: array<u32>, tn: nat, ai: u32, b: BigNum, i: nat)
    requires b.Valid() && b.d != t && t.Length == MAX_LIMBS && i < MAX_LIMBS
    requires tn <= MAX_LIMBS && (i + b.n < tn || tn == MAX_LIMBS)
    requires forall k :: i + b.n <= k < tn ==> t[k] == 0
    modifies t
    ensures Pow(W32, MAX_LIMBS) > 0
    ensures Cong(Val(t[..tn], W32), Val(old(t[..tn]), W32) + (ai * Pow(W32, i)) * b.V(), Pow(W32, MAX_LIMBS))
    ensures forall k :: i + b.n < k < tn ==> t[k] == 0
  {
    hide Val, Pow, Cong, RowSum;
    ghost var u, y := t[..], b.Limbs();
    var carry: u64 := 0;
    var j := 0;
    MulRowStart(t[..], y, i, ai);
    while j < b.n && i + j < MAX_LIMBS
      invariant 0 <= j <= b.n && i + j <= MAX_LIMBS && carry < W32
      invariant forall k :: i + j <= k < MAX_LIMBS ==> t[k] == u[k]
      invariant RowSum(t[..i + j], carry, u, y, i, j, ai)
    {
      MulFits(ai, b.d[j], t[i + j], carry);
      var p: u64 := ai * b.d[j] + t[i + j] + carry;
      ghost var before := t[..i + j];
      MulStep(before, u, y, i, j, ai, carry, p);
      t[i + j] := p % W32;
      assert t[..i + j + 1] == before + [p % W32];
      carry := p / W32;
      j := j + 1;
    }
    if i + b.n < MAX_LIMBS {
      ghost var before := t[..i + b.n];
      var p: u64 := t[i + b.n] + carry;
      t[i + b.n] := p % W32;
      assert t[..i + b.n + 1] == before + [carry];
      MulRowEnd(before, t[..], u, y, i, ai, carry, tn);
    } else {
      assert t[..MAX_LIMBS] == t[..] && u[..MAX_LIMBS] == u;
      MulRowCut(t[..], u, y, i, ai, carry);
    }
    assert t[..][..tn] == t[..tn] && u[..tn] == old(t[..tn]);
  }

  lemma {:induction false} MulFits(x: u32, y: u32, z: u32, c: int)
    requires 0 <= c < W32
    ensures 0 <= x * y + z + c < W64
  {
    MulMono(x, W32 - 1, y);
    MulMono(0, x, y);
  }

  lemma {:induction false} MulRowStart(t: seq<int>, y: seq<int>, i: nat, ai: int)
    requires i <= |t|
    ensures RowSum(t[..i], 0, t, y, i, 0, ai)
  {
    hide Pow;
    ValEmpty(y[..0], W32);
  }

  lemma {:induction false} MulRowEnd(low: seq<int>, t: seq<int>, u: seq<int>, y: seq<int>, i: nat, ai: int, c: int,
                                     tn: nat)
    requires |t| == |u| == MAX_LIMBS && i + |y| < tn <= MAX_LIMBS && |low| == i + |y|
    requires RowSum(low, c, u, y, i, |y|, ai)
    requires t[..i + |y| + 1] == low + [c]
    requires forall k :: i + |y| <= k < tn ==> u[k] == 0
    requires forall k :: i + |y| < k < tn ==> t[k] == 0
    ensures Pow(W32, MAX_LIMBS) > 0
    ensures Cong(Val(t[..tn], W32), Val(u[..tn], W32) + (ai * Pow(W32, i)) * Val(y, W32), Pow(W32, MAX_LIMBS))
  {
    hide Val, Pow, Cong;
    var n := i + |y|;
    assert y[..|y|] == y;
    PowPos(W32, MAX_LIMBS);
    ValSplit(t[..tn], n + 1, W32);
    assert t[..tn][..n + 1] == low + [c];
    ValZeros(t[..tn][n + 1..], W32);
    ValSnoc(low, c, W32);
    ValSplit(u[..tn], n, W32);
    assert u[..tn][..n] == u[..n];
    ValZeros(u[..tn][n..], W32);
    CongRefl(Val(t[..tn], W32), Pow(W32, MAX_LIMBS));
  }

  lemma {:induction false} MulRowCut(t: seq<int>, u: seq<int>, y: seq<int>, i: nat, ai: int, c: int)
    requires |t| == |u| == MAX_LIMBS && i < MAX_LIMBS <= i + |y|
    requires RowSum(t, c, u, y, i, MAX_LIMBS - i, ai)
    ensures Pow(W32, MAX_LIMBS) > 0
    ensures Cong(Val(t, W32), Val(u, W32) + (ai * Pow(W32, i)) * Val(y, W32), Pow(W32, MAX_LIMBS))
  {
    hide Val, Pow, Cong;
    var j := MAX_LIMBS - i;
    assert u[..MAX_LIMBS] == u;
    var p, q, x, low, high := Pow(W32, MAX_LIMBS), Pow(W32, i), Pow(W32, j), Val(y[..j], W32), Val(y[j..], W32);
    PowPos(W32, MAX_LIMBS);
    ValSplit(y, j, W32);
    PowAdd(W32, i, j);
    calc {
      (ai * q) * Val(y, W32);
      (ai * q) * (low + x * high);
      (ai * q) * low + (ai * q) * (x * high);
      { MulSwap(ai, high, q, x); assert (ai * q) * (x * high) == (ai * q) * (high * x);
        MulSwap(ai, q, high, x); }
      (ai * q) * low + (ai * high) * (q * x);
    }
    CongFromQuotient(Val(t, W32), Val(u, W32) + (ai * q) * Val(y, W32), -c - ai * high, p);
  }

  /** r = a * b, reduced modulo 2^(32*144) when the product is longer than that. */
  method Mul(r: BigNum, a: BigNum, b: BigNum)
    requires r.Valid() && a.Valid() && b.Valid()
    modifies r, r.d
    ensures r.Valid() && r.Trimmed()
    ensures r.V() == Wrap(old(a.V()) * old(b.V()))
    ensures old(a.n) + old(b.n) <= MAX_LIMBS ==> r.V() == old(a.V()) * old(b.V())
  {
    hide Val, Pow, Cong, Wrap;
    var t := new BigNum();
    var tn := a.n + b.n;
    if tn > MAX_LIMBS {
      tn := MAX_LIMBS;
    }
    forall k | 0 <= k < tn {
      t.d[k] := 0;
    }
    ValZeros(t.d[..tn], W32);
    ghost var x, bv := a.Limbs(), b.V();
    MulStart(x, bv, Val(t.d[..tn], W32));
    var i := 0;
    while i < a.n
      invariant 0 <= i <= a.n
      invariant forall k :: i + b.n <= k < tn ==> t.d[k] == 0
      invariant Pow(W32, MAX_LIMBS) > 0
      invariant Cong(Val(t.d[..tn], W32), Val(x[..i], W32) * bv, Pow(W32, MAX_LIMBS))
      modifies t.d
    {
      ghost var before := Val(t.d[..tn], W32);
      if a.d[i] != 0 {
        MulRow(t.d, tn, a.d[i], b, i);
      } else {
        CongRefl(before, Pow(W32, MAX_LIMBS));
      }
      MulNextRow(x, i, bv, before, Val(t.d[..tn], W32));
      i := i + 1;
    }
    assert x[..a.n] == x;
    MulWhole(x, b.Limbs(), t.d[..tn]);
    t.n := tn;
    Trim(t);
    Copy(r, t);
  }

  lemma {:induction false} MulStart(x: seq<int>, b: int, v: int)
    requires v == 0
    ensures Pow(W32, MAX_LIMBS) > 0 && Cong(v, Val(x[..0], W32) * b, Pow(W32, MAX_LIMBS))
  {
    hide Pow, Cong;
    PowPos(W32, MAX_LIMBS);
    ValEmpty(x[..0], W32);
    CongRefl(0, Pow(W32, MAX_LIMBS));
  }

  lemma {:induction false} MulNextRow(x: seq<int>, i: nat, b: int, before: int, after: int)
    requires i < |x| && Pow(W32, MAX_LIMBS) > 0
    requires Cong(before, Val(x[..i], W32) * b, Pow(W32, MAX_LIMBS))
    requires x[i] == 0 ==> after == before
    requires x[i] != 0 ==> Cong(after, before + (x[i] * Pow(W32, i)) * b, Pow(W32, MAX_LIMBS))
    ensures Cong(after, Val(x[..i + 1], W32) * b, Pow(W32, MAX_LIMBS))
  {
    hide Val, Pow, Cong;
    var p, row := Pow(W32, MAX_LIMBS), x[i] * Pow(W32, i);
    ValPrefix(x, i, W32);
    assert Val(x[..i + 1], W32) * b == Val(x[..i], W32) * b + row * b;
    if x[i] == 0 {
      CongRefl(after, p);
    }
    CongRefl(row * b, p);
    CongAdd(before, Val(x[..i], W32) * b, row * b, row * b, p);
    CongTrans(after, before + row * b, Val(x[..i + 1], W32) * b, p);
  }

  lemma {:induction false} MulWhole(x: seq<int>, y: seq<int>, t: seq<int>)
    requires |x| <= MAX_LIMBS && |y| <= MAX_LIMBS && |t| <= MAX_LIMBS && Digits(x, W32) && Digits(y, W32)
    requires Digits(t, W32)
    requires Pow(W32, MAX_LIMBS) > 0 && Cong(Val(t, W32), Val(x, W32) * Val(y, W32), Pow(W32, MAX_LIMBS))
    ensures Val(t, W32) == Wrap(Val(x, W32) * Val(y, W32))
    ensures |x| + |y| <= MAX_LIMBS ==> Val(t, W32) == Val(x, W32) * Val(y, W32)
  {
    hide Val, Pow, Cong, Wrap;
    PowFits(t);
    if |x| + |y| <= MAX_LIMBS {
      ProductFits(x, y);
    }
    WrapCong(Val(t, W32), Val(x, W32) * Val(y, W32));
  }

  lemma {:induction false} WrapCong(t: int, v: int)
    requires Pow(W32, MAX_LIMBS) > 0 && 0 <= t < Pow(W32, MAX_LIMBS) && Cong(t, v, Pow(W32, MAX_LIMBS))
    ensures t == Wrap(v)
    ensures 0 <= v < Pow(W32, MAX_LIMBS) ==> t == v
  {
    hide Pow, Cong;
    var p := Pow(W32, MAX_LIMBS);
    CongIffMod(t, v, p);
    DivModUnique(t, 0, t, p);
    if 0 <= v < p {
      DivModUnique(v, 0, v, p);
    }
  }

  lemma {:induction false} ProductFits(x: seq<int>, y: seq<int>)
    requires |x| + |y| <= MAX_LIMBS && Digits(x, W32) && Digits(y, W32)
    ensures 0 <= Val(x, W32) * Val(y, W32) < Pow(W32, MAX_LIMBS)
  {
    hide Val, Pow;
    ValBound(x, W32);
    ValBound(y, W32);
    PowAdd(W32, |x|, |y|);
    PowGrows(|x| + |y|);
    ProductBelow(Val(x, W32), Val(y, W32), Pow(W32, |x|), Pow(W32, |y|));
  }

  lemma {:induction false} PowGrows(n: nat)
    requires n <= MAX_LIMBS
    ensures 0 < Pow(W32, n) <= Pow(W32, MAX_LIMBS)
  {
    hide Pow;
    PowAdd(W32, n, MAX_LIMBS - n);
    PowPos(W32, n);
    PowPos(W32, MAX_LIMBS - n);
    MulMono(1, Pow(W32, MAX_LIMBS - n), Pow(W32, n));
  }

  lemma {:induction false} ProductBelow(x: int, y: int, a: int, b: int)
    requires 0 <= x < a && 0 <= y < b
    ensures 0 <= x * y < a * b
  {
    MulMono(0, x, y);
    MulMono(x, a, y);
    MulMono(y + 1, b, a);
    assert (y + 1) * a == y * a + a;
  }

  lemma {:induction false} PowFits(s: seq<int>)
    requires |s| <= MAX_LIMBS && Digits(s, W32)
    ensures 0 <= Val(s, W32) < Pow(W32, |s|) <= Pow(W32, MAX_LIMBS)
  {
    hide Val, Pow;
    ValBound(s, W32);
    PowGrows(|s|);
  }
}
