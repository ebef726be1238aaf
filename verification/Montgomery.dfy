/**
 Montgomery multiplication (src/crypto/bn.c): the CIOS loop over 32-bit limbs, the same
 loop over 64-bit limbs for moduli of an even number of limbs, and the set-up of a
 Montgomery context.
 */
module Montgomery {
  import opened Words
  import opened ModArith
  import opened Limbs
  import opened Bn

  // ---------------------------------------------------------------------------
  // One row of the loop, over words of base w
  // ---------------------------------------------------------------------------

  // t + a * b, one column further; c is the carry into column j.
  lemma {:induction false} RowStep(t: seq<int>, u: seq<int>, b: seq<int>, j: nat, a: int, c: int, s: int, w: int)
    requires w > 0 && |t| == j && j < |u| && j < |b|
    requires Val(t, w) + c * Pow(w, j) == Val(u[..j], w) + a * Val(b[..j], w)
    requires s == a * b[j] + u[j] + c
    ensures Val(t + [s % w], w) + (s / w) * Pow(w, j + 1) == Val(u[..j + 1], w) + a * Val(b[..j + 1], w)
  {
    hide Val, Pow;
    ValSnoc(t, s % w, w);
    ValPrefix(u, j, w);
    ValPrefix(b, j, w);
    PowSucc(w, j);
    Column(s % w, s / w, Pow(w, j), a, b[j], u[j], c, Val(b[..j], w), w);
  }

  lemma {:induction false} Column(d: int, c': int, p: int, a: int, bj: int, uj: int, c: int, b: int, w: int)
    requires d + c' * w == a * bj + uj + c
    ensures d * p + c' * (w * p) == c * p + uj * p + a * (b + bj * p) - a * b
  {
    calc {
      d * p + c' * (w * p);
      (d + c' * w) * p;
      (a * bj + uj + c) * p;
      c * p + uj * p + (a * bj) * p;
      { assert (a * bj) * p == a * (bj * p); }
      c * p + uj * p + a * (bj * p);
      { assert a * (b + bj * p) == a * b + a * (bj * p); }
      c * p + uj * p + a * (b + bj * p) - a * b;
    }
  }

  // The last two words of a row: t[k] + c, spread over two words.
  lemma {:induction false} RowTop(t: seq<int>, u: seq<int>, k: nat, c: int, s: int, w: int, v: int)
    requires w > 0 && |t| == k && k < |u|
    requires Val(t, w) + c * Pow(w, k) == Val(u[..k], w) + v
    requires s == u[k] + c
    ensures Val(t + [s % w] + [s / w], w) == Val(u[..k + 1], w) + v
  {
    hide Val, Pow;
    var p := Pow(w, k);
    ValSnoc(t, s % w, w);
    ValSnoc(t + [s % w], s / w, w);
    ValPrefix(u, k, w);
    PowSucc(w, k);
    calc {
      (s % w) * p + (s / w) * (w * p);
      (s % w + (s / w) * w) * p;
      { assert s % w + (s / w) * w == s; }
      (u[k] + c) * p;
      u[k] * p + c * p;
    }
  }

  // (t + q * m) / w, one column further: limb j lands in place j - 1.
  lemma {:induction false} ShiftStepDown(t: seq<int>, u: seq<int>, m: seq<int>, j: nat, q: int, c: int, s: int, w: int)
    requires w > 0 && |t| == j - 1 && 1 <= j < |u| && j < |m|
    requires w * Val(t, w) + c * Pow(w, j) == Val(u[..j], w) + q * Val(m[..j], w)
    requires s == q * m[j] + u[j] + c
    ensures w * Val(t + [s % w], w) + (s / w) * Pow(w, j + 1) == Val(u[..j + 1], w) + q * Val(m[..j + 1], w)
  {
    hide Val, Pow;
    var p := Pow(w, j - 1);
    ValSnoc(t, s % w, w);
    ValPrefix(u, j, w);
    ValPrefix(m, j, w);
    PowSucc(w, j);
    PowSucc(w, j - 1);
    Column(s % w, s / w, Pow(w, j), q, m[j], u[j], c, Val(m[..j], w), w);
    assert w * ((s % w) * p) == (s % w) * (w * p);
    assert w * (Val(t, w) + (s % w) * p) == w * Val(t, w) + w * ((s % w) * p);
  }

  lemma {:induction false} ShiftFirst(u: seq<int>, m: seq<int>, q: int, s: int, w: int)
    requires w > 0 && |u| > 0 && |m| > 0
    requires s == q * m[0] + u[0] && s % w == 0
    ensures w * Val([], w) + (s / w) * Pow(w, 1) == Val(u[..1], w) + q * Val(m[..1], w)
  {
    hide Val, Pow;
    PowOne(w);
    ValEmpty([], w);
    ValSnoc([], u[0], w);
    ValSnoc([], m[0], w);
    assert u[..1] == [] + [u[0]] && m[..1] == [] + [m[0]];
    assert (s / w) * w == s;
  }

  // The last two words of the shifted row.
  lemma {:induction false} ShiftTopDown(t: seq<int>, u: seq<int>, k: nat, c: int, s: int, w: int, v: int)
    requires w > 0 && 1 <= k && |t| == k - 1 && k + 1 < |u|
    requires w * Val(t, w) + c * Pow(w, k) == Val(u[..k], w) + v
    requires s == u[k] + c
    ensures w * Val(t + [s % w] + [u[k + 1] + s / w], w) == Val(u[..k + 2], w) + v
  {
    hide Val, Pow;
    var p, d, e := Pow(w, k - 1), s % w, s / w;
    ValSnoc(t, d, w);
    ValSnoc(t + [d], u[k + 1] + e, w);
    ValPrefix(u, k, w);
    ValPrefix(u, k + 1, w);
    PowSucc(w, k - 1);
    PowSucc(w, k);
    var p1 := Pow(w, k);
    calc {
      w * (d * p) + w * ((u[k + 1] + e) * p1);
      { assert w * (d * p) == d * (w * p); assert w * ((u[k + 1] + e) * p1) == (u[k + 1] + e) * (w * p1); }
      d * p1 + (u[k + 1] + e) * (w * p1);
      { assert (u[k + 1] + e) * (w * p1) == u[k + 1] * (w * p1) + (e * w) * p1; }
      (d + e * w) * p1 + u[k + 1] * (w * p1);
      { assert d + e * w == s; }
      (u[k] + c) * p1 + u[k + 1] * (w * p1);
    }
    assert w * (Val(t, w) + d * p + (u[k + 1] + e) * p1) == w * Val(t, w) + w * (d * p) + w * ((u[k + 1] + e) * p1);
  }

  // The top word of the shifted row cannot overflow.
  lemma {:induction false} TopWordFits(t: seq<int>, top: int, k: nat, w: int, total: int)
    requires w > 0 && |t| == k && Digits(t, w) && total < Pow(w, k + 2)
    requires w * Val(t + [top], w) == total
    ensures top < w
  {
    hide Val, Pow;
    ValSnoc(t, top, w);
    ValBound(t, w);
    PowSucc(w, k);
    PowSucc(w, k + 1);
    var p, v := Pow(w, k), Val(t + [top], w);
    PowPos(w, k);
    if v >= w * p {
      MulMono(w * p, v, w);
    }
    if top >= w {
      MulMono(w, top, p);
    }
  }

  // ---------------------------------------------------------------------------
  // The invariant of the whole loop
  // ---------------------------------------------------------------------------

  /** After i rows: t * w^i = a[..i] * b + q * m for some q, and t < 2m. */
  ghost predicate RowsDone(t: int, ai: int, i: nat, b: int, m: int, w: int, q: int) {
    0 <= t < 2 * m && t * Pow(w, i) == ai * b + q * m
  }

  lemma {:induction false} NextRow(t: int, t': int, a: seq<int>, i: nat, b: int, m: int, w: int, q: int, mi: int)
    requires w > 0 && i < |a| && 0 <= a[i] < w && 0 <= mi < w && 0 <= b <= m
    requires RowsDone(t, Val(a[..i], w), i, b, m, w, q)
    requires t' * w == t + a[i] * b + mi * m
    ensures RowsDone(t', Val(a[..i + 1], w), i + 1, b, m, w, q + mi * Pow(w, i))
  {
    hide Val, Pow;
    ValPrefix(a, i, w);
    PowSucc(w, i);
    NextRowValue(t, t', Val(a[..i], w), a[i], Pow(w, i), b, m, w, q, mi);
    NextRowBound(t, t', a[i], b, m, w, mi);
  }

  lemma {:induction false} NextRowValue(t: int, t': int, av: int, ai: int, p: int, b: int, m: int, w: int, q: int,
                                        mi: int)
    requires t * p == av * b + q * m
    requires t' * w == t + ai * b + mi * m
    ensures t' * (w * p) == (av + ai * p) * b + (q + mi * p) * m
  {
    calc {
      t' * (w * p);
      (t' * w) * p;
      (t + ai * b + mi * m) * p;
      t * p + (ai * b) * p + (mi * m) * p;
      { assert (ai * b) * p == (ai * p) * b; assert (mi * m) * p == (mi * p) * m; }
      av * b + q * m + (ai * p) * b + (mi * p) * m;
      { assert (av + ai * p) * b == av * b + (ai * p) * b; assert (q + mi * p) * m == q * m + (mi * p) * m; }
      (av + ai * p) * b + (q + mi * p) * m;
    }
  }

  // t' w = t + ai b + mi m < 2m + 2 (w - 1) m = 2 w m
  lemma {:induction false} NextRowBound(t: int, t': int, ai: int, b: int, m: int, w: int, mi: int)
    requires w > 0 && 0 <= ai < w && 0 <= mi < w && 0 <= b <= m && 0 <= t < 2 * m
    requires t' * w == t + ai * b + mi * m
    ensures 0 <= t' < 2 * m
  {
    MulMono(ai, w - 1, b);
    MulMono(b, m, w - 1);
    MulMono(mi, w - 1, m);
    MulMono(0, ai, b);
    MulMono(0, mi, m);
    assert 0 <= t' * w < (2 * m) * w by {
      assert (2 * m) * w == 2 * m + (w - 1) * m + (w - 1) * m;
    }
    if t' >= 2 * m {
      MulMono(2 * m, t', w);
    }
    if t' <= -1 {
      MulMono(t', -1, w);
    }
  }

  // The row before the shift fits in k + 2 words.
  lemma {:induction false} RowFits(t: int, ai: int, b: int, m: int, mi: int, w: int, k: nat)
    requires w > 1 && 0 <= ai < w && 0 <= mi < w && 0 <= b <= m < Pow(w, k) && 0 <= t < 2 * m
    ensures t + ai * b + mi * m < Pow(w, k + 2)
  {
    hide Pow;
    PowSucc(w, k);
    PowSucc(w, k + 1);
    var p := Pow(w, k);
    MulMono(ai, w - 1, b);
    MulMono(b, m, w - 1);
    MulMono(mi, w - 1, m);
    assert t + ai * b + mi * m < (2 * w) * m;
    MulMono(m, p, 2 * w);
    MulMono(2, w, w * p) by { MulMono(0, w, p); }
    assert (2 * w) * p == 2 * (w * p);
  }

  // The factor chosen for the row clears the low word of the total.
  lemma {:induction false} LowWordClears(t0: int, m0: int, inv: int, w: int)
    requires w > 0 && (m0 * inv + 1) % w == 0
    ensures (((t0 * inv) % w) * m0 + t0) % w == 0
  {
    hide Cong;
    var mi := (t0 * inv) % w;
    CongMod(t0 * inv, w);
    CongRefl(m0, w);
    CongRefl(t0, w);
    CongMul(mi, t0 * inv, m0, m0, w);
    CongAdd(mi * m0, (t0 * inv) * m0, t0, t0, w);
    assert (t0 * inv) * m0 + t0 == t0 * (m0 * inv + 1);
    CongIffMod(m0 * inv + 1, 0, w);
    CongIffZero(m0 * inv + 1, w);
    CongMul(t0, t0, m0 * inv + 1, 0, w);
    CongTrans(mi * m0 + t0, t0 * (m0 * inv + 1), 0, w);
    CongIffZero(mi * m0 + t0, w);
  }

  lemma {:induction false} CongIffZero(x: int, w: int)
    requires w > 0
    ensures Cong(x, 0, w) <==> x % w == 0
  {
  }

  lemma {:induction false} CongOfRows(t: int, a: int, k: nat, b: int, m: int, w: int, q: int)
    requires m > 0 && RowsDone(t, a, k, b, m, w, q)
    ensures Cong(t * Pow(w, k), a * b, m)
  {
    CongFromQuotient(t * Pow(w, k), a * b, q, m);
  }

  lemma {:induction false} RowStart(t: seq<int>, u: seq<int>, y: seq<int>, a: int, w: int)
    requires |t| == |u| == |y| == 0
    ensures Val(t, w) + 0 * Pow(w, 0) == Val(u, w) + a * Val(y, w)
  {
  }

  lemma {:induction false} WordFits(x: int, y: int, z: int, c: int, w: int)
    requires 0 <= x < w && 0 <= y < w && 0 <= z < w && 0 <= c < w
    ensures 0 <= x * y + z + c < w * w
    ensures (x * y + z + c) / w < w
  {
    MulMono(x, w - 1, y);
    MulMono(0, x, y);
    MulMono(y, w - 1, w - 1);
    var s := x * y + z + c;
    assert s < w * w by {
      assert (w - 1) * (w - 1) + 2 * (w - 1) < w * w;
    }
    if s / w >= w {
      MulMono(w, s / w, w);
    }
  }

  lemma {:induction false} RowsStart(t: seq<int>, x: seq<int>, b: int, m: int, w: int)
    requires m > 0 && forall i :: 0 <= i < |t| ==> t[i] == 0
    ensures RowsDone(Val(t, w), Val(x[..0], w), 0, b, m, w, 0)
  {
    ValZeros(t, w);
    ValEmpty(x[..0], w);
  }

  lemma {:induction false} RowBound(t: int, a: int, i: nat, b: int, m: int, w: int, q: int)
    requires RowsDone(t, a, i, b, m, w, q)
    ensures 0 <= t < 2 * m
  {
  }

  // ---------------------------------------------------------------------------
  // The loop over 32-bit words
  // ---------------------------------------------------------------------------

  // t = t + ai * b, over k + 2 words.
  method AccumulateRow32(t: array<u32>, ai: u32, b: array<u32>, k: nat)
    requires t != b && k + 2 <= t.Length && k <= b.Length
    modifies t
    ensures Val(t[..k + 2], W32) == Val(old(t[..k + 1]), W32) + ai * Val(b[..k], W32)
  {
    hide Val, Pow;
    ghost var u, y := t[..], b[..];
    var carry: u64 := 0;
    var j := 0;
    RowStart(t[..0], u[..0], y[..0], ai, W32);
    while j < k
      invariant 0 <= j <= k && carry < W32
      invariant forall i :: j <= i < k + 2 ==> t[i] == u[i]
      invariant Val(t[..j], W32) + carry * Pow(W32, j) == Val(u[..j], W32) + ai * Val(y[..j], W32)
    {
      WordFits(ai, b[j], t[j], carry, W32);
      var p: u64 := ai * b[j] + t[j] + carry;
      ghost var before := t[..j];
      RowStep(before, u, y, j, ai, carry, p, W32);
      t[j] := p % W32;
      assert t[..j + 1] == before + [p % W32];
      carry := p / W32;
      j := j + 1;
    }
    ghost var before := t[..k];
    var p: u64 := t[k] + carry;
    RowTop(before, u, k, carry, p, W32, ai * Val(y[..k], W32));
    t[k] := p % W32;
    t[k + 1] := p / W32;
    assert t[..k + 2] == before + [p % W32] + [p / W32];
    assert u[..k + 1] == old(t[..k + 1]) && y[..k] == b[..k];
  }

  // t = (t + mi * m) / 2^32, for an mi that makes the division exact.
  method ReduceRow32(t: array<u32>, mi: u32, m: array<u32>, k: nat)
    requires t != m && 1 <= k <= m.Length && k + 2 <= t.Length
    requires (mi * m[0] + t[0]) % W32 == 0
    requires Val(t[..k + 2], W32) + mi * Val(m[..k], W32) < Pow(W32, k + 2)
    modifies t
    ensures Val(t[..k + 1], W32) * W32 == Val(old(t[..k + 2]), W32) + mi * Val(m[..k], W32)
  {
    hide Val, Pow;
    ghost var u, y := t[..], m[..];
    WordFits(mi, m[0], t[0], 0, W32);
    var p: u64 := mi * m[0] + t[0];
    var carry: u64 := p / W32;
    ShiftFirst(u, y, mi, p, W32);
    var j := 1;
    assert t[..0] == [];
    while j < k
      invariant 1 <= j <= k && carry < W32
      invariant forall i :: j <= i < k + 2 ==> t[i] == u[i]
      invariant W32 * Val(t[..j - 1], W32) + carry * Pow(W32, j) == Val(u[..j], W32) + mi * Val(y[..j], W32)
    {
      WordFits(mi, m[j], t[j], carry, W32);
      p := mi * m[j] + t[j] + carry;
      ghost var before := t[..j - 1];
      ShiftStepDown(before, u, y, j, mi, carry, p, W32);
      t[j - 1] := p % W32;
      assert t[..j] == before + [p % W32];
      carry := p / W32;
      j := j + 1;
    }
    ghost var before := t[..k - 1];
    p := t[k] + carry;
    ShiftTopDown(before, u, k, carry, p, W32, mi * Val(y[..k], W32));
    assert u[..k + 2] == old(t[..k + 2]) && y[..k] == m[..k];
    TopWordFits(before + [p % W32], u[k + 1] + p / W32, k, W32, Val(u[..k + 2], W32) + mi * Val(y[..k], W32));
    t[k - 1] := p % W32;
    t[k] := t[k + 1] + p / W32;
    assert t[..k + 1] == before + [p % W32] + [u[k + 1] + p / W32];
  }

  /**
   The CIOS loop over 32-bit words.  Every product and running total is held in a
   variable of a 64-bit or 32-bit type, so each assignment carries the proof that it fits.
   */
  method Cios32(t: array<u32>, a: array<u32>, b: array<u32>, m: array<u32>, k: nat, inv: u32)
    requires t != a && t != b && t != m
    requires 1 <= k && k + 2 <= t.Length && k <= a.Length && k <= b.Length && k <= m.Length
    requires (m[0] * inv + 1) % W32 == 0
    requires Val(m[..k], W32) > 0 && Val(b[..k], W32) <= Val(m[..k], W32)
    modifies t
    ensures 0 <= Val(t[..k + 1], W32) < 2 * Val(m[..k], W32)
    ensures Cong(Val(t[..k + 1], W32) * Pow(W32, k), Val(a[..k], W32) * Val(b[..k], W32), Val(m[..k], W32))
  {
    hide Val, Pow, Cong, RowsDone;
    ghost var x, y, z, q := a[..], b[..k], m[..k], 0;
    ghost var bv, mv := Val(y, W32), Val(z, W32);
    ValBound(y, W32);
    ValBound(z, W32);
    forall i | 0 <= i < k + 2 {
      t[i] := 0;
    }
    RowsStart(t[..k + 1], x, bv, mv, W32);
    var i := 0;
    while i < k
      invariant 0 <= i <= k && a[..] == x && b[..k] == y && m[..k] == z
      invariant RowsDone(Val(t[..k + 1], W32), Val(x[..i], W32), i, bv, mv, W32, q)
    {
      ghost var t0 := Val(t[..k + 1], W32);
      AccumulateRow32(t, a[i], b, k);
      var mi := (t[0] * inv) % W32;
      LowWordClears(t[0], m[0], inv, W32);
      RowBound(t0, Val(x[..i], W32), i, bv, mv, W32, q);
      RowFits(t0, a[i], bv, mv, mi, W32, k);
      ReduceRow32(t, mi, m, k);
      NextRow(t0, Val(t[..k + 1], W32), x, i, bv, mv, W32, q, mi);
      q := q + mi * Pow(W32, i);
      i := i + 1;
    }
    assert x[..k] == a[..k];
    RowBound(Val(t[..k + 1], W32), Val(x[..k], W32), k, bv, mv, W32, q);
    CongOfRows(Val(t[..k + 1], W32), Val(x[..k], W32), k, bv, mv, W32, q);
  }

  // ---------------------------------------------------------------------------
  // The loop over 64-bit words
  // ---------------------------------------------------------------------------

  // t = t + ai * b, over k + 2 words.
  method AccumulateRow64(t: array<u64>, ai: u64, b: array<u64>, k: nat)
    requires t != b && k + 2 <= t.Length && k <= b.Length
    modifies t
    ensures Val(t[..k + 2], W64) == Val(old(t[..k + 1]), W64) + ai * Val(b[..k], W64)
  {
    hide Val, Pow;
    ghost var u, y := t[..], b[..];
    var carry: u128 := 0;
    var j := 0;
    RowStart(t[..0], u[..0], y[..0], ai, W64);
    while j < k
      invariant 0 <= j <= k && carry < W64
      invariant forall i :: j <= i < k + 2 ==> t[i] == u[i]
      invariant Val(t[..j], W64) + carry * Pow(W64, j) == Val(u[..j], W64) + ai * Val(y[..j], W64)
    {
      WordFits(ai, b[j], t[j], carry, W64);
      var p: u128 := ai * b[j] + t[j] + carry;
      ghost var before := t[..j];
      RowStep(before, u, y, j, ai, carry, p, W64);
      t[j] := p % W64;
      assert t[..j + 1] == before + [p % W64];
      carry := p / W64;
      j := j + 1;
    }
    ghost var before := t[..k];
    var p: u128 := t[k] + carry;
    RowTop(before, u, k, carry, p, W64, ai * Val(y[..k], W64));
    t[k] := p % W64;
    t[k + 1] := p / W64;
    assert t[..k + 2] == before + [p % W64] + [p / W64];
    assert u[..k + 1] == old(t[..k + 1]) && y[..k] == b[..k];
  }

  // t = (t + mi * m) / 2^64, for an mi that makes the division exact.
  method ReduceRow64(t: array<u64>, mi: u64, m: array<u64>, k: nat)
    requires t != m && 1 <= k <= m.Length && k + 2 <= t.Length
    requires (mi * m[0] + t[0]) % W64 == 0
    requires Val(t[..k + 2], W64) + mi * Val(m[..k], W64) < Pow(W64, k + 2)
    modifies t
    ensures Val(t[..k + 1], W64) * W64 == Val(old(t[..k + 2]), W64) + mi * Val(m[..k], W64)
  {
    hide Val, Pow;
    ghost var u, y := t[..], m[..];
    WordFits(mi, m[0], t[0], 0, W64);
    var p: u128 := mi * m[0] + t[0];
    var carry: u128 := p / W64;
    ShiftFirst(u, y, mi, p, W64);
    var j := 1;
    assert t[..0] == [];
    while j < k
      invariant 1 <= j <= k && carry < W64
      invariant forall i :: j <= i < k + 2 ==> t[i] == u[i]
      invariant W64 * Val(t[..j - 1], W64) + carry * Pow(W64, j) == Val(u[..j], W64) + mi * Val(y[..j], W64)
    {
      WordFits(mi, m[j], t[j], carry, W64);
      p := mi * m[j] + t[j] + carry;
      ghost var before := t[..j - 1];
      ShiftStepDown(before, u, y, j, mi, carry, p, W64);
      t[j - 1] := p % W64;
      assert t[..j] == before + [p % W64];
      carry := p / W64;
      j := j + 1;
    }
    ghost var before := t[..k - 1];
    p := t[k] + carry;
    ShiftTopDown(before, u, k, carry, p, W64, mi * Val(y[..k], W64));
    assert u[..k + 2] == old(t[..k + 2]) && y[..k] == m[..k];
    TopWordFits(before + [p % W64], u[k + 1] + p / W64, k, W64, Val(u[..k + 2], W64) + mi * Val(y[..k], W64));
    t[k - 1] := p % W64;
    t[k] := t[k + 1] + p / W64;
    assert t[..k + 1] == before + [p % W64] + [u[k + 1] + p / W64];
  }

  /**
   The CIOS loop over 64-bit words.  Every product and running total is held in a
   variable of a 128-bit or 64-bit type, so each assignment carries the proof that it fits.
   */
  method Cios64(t: array<u64>, a: array<u64>, b: array<u64>, m: array<u64>, k: nat, inv: u64)
    requires t != a && t != b && t != m
    requires 1 <= k && k + 2 <= t.Length && k <= a.Length && k <= b.Length && k <= m.Length
    requires (m[0] * inv + 1) % W64 == 0
    requires Val(m[..k], W64) > 0 && Val(b[..k], W64) <= Val(m[..k], W64)
    modifies t
    ensures 0 <= Val(t[..k + 1], W64) < 2 * Val(m[..k], W64)
    ensures Cong(Val(t[..k + 1], W64) * Pow(W64, k), Val(a[..k], W64) * Val(b[..k], W64), Val(m[..k], W64))
  {
    hide Val, Pow, Cong, RowsDone;
    ghost var x, y, z, q := a[..], b[..k], m[..k], 0;
    ghost var bv, mv := Val(y, W64), Val(z, W64);
    ValBound(y, W64);
    ValBound(z, W64);
    forall i | 0 <= i < k + 2 {
      t[i] := 0;
    }
    RowsStart(t[..k + 1], x, bv, mv, W64);
    var i := 0;
    while i < k
      invariant 0 <= i <= k && a[..] == x && b[..k] == y && m[..k] == z
      invariant RowsDone(Val(t[..k + 1], W64), Val(x[..i], W64), i, bv, mv, W64, q)
    {
      ghost var t0 := Val(t[..k + 1], W64);
      AccumulateRow64(t, a[i], b, k);
      var mi := (t[0] * inv) % W64;
      LowWordClears(t[0], m[0], inv, W64);
      RowBound(t0, Val(x[..i], W64), i, bv, mv, W64, q);
      RowFits(t0, a[i], bv, mv, mi, W64, k);
      ReduceRow64(t, mi, m, k);
      NextRow(t0, Val(t[..k + 1], W64), x, i, bv, mv, W64, q, mi);
      q := q + mi * Pow(W64, i);
      i := i + 1;
    }
    assert x[..k] == a[..k];
    RowBound(Val(t[..k + 1], W64), Val(x[..k], W64), k, bv, mv, W64, q);
    CongOfRows(Val(t[..k + 1], W64), Val(x[..k], W64), k, bv, mv, W64, q);
  }
}
