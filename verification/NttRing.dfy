/**
 What the ML-DSA transform is for (section 7.5 of FIPS 204): it evaluates a polynomial at the
 256 roots of X^256 + 1 modulo q, so that multiplying transforms entry by entry multiplies
 polynomials modulo X^256 + 1.
 */
module NttRing {
  import opened Words
  import opened ModArith
  import opened Mldsa
  import opened Ntt

  // ---------------------------------------------------------------------------
  // Polynomials
  // ---------------------------------------------------------------------------

  /** The polynomial with coefficients s, constant first, at x. */
  function Eval(s: seq<int>, x: int): int {
    if |s| == 0 then 0 else s[0] + x * Eval(s[1..], x)
  }

  /** a + z b, coefficient by coefficient. */
  function Comb(a: seq<int>, b: seq<int>, z: int): (r: seq<int>)
    requires |a| == |b|
    ensures |r| == |a| && forall i :: 0 <= i < |a| ==> r[i] == a[i] + z * b[i]
  {
    seq(|a|, i requires 0 <= i < |a| => a[i] + z * b[i])
  }

  lemma {:induction false} EvalConcat(a: seq<int>, b: seq<int>, x: int)
    ensures Eval(a + b, x) == Eval(a, x) + Pow(x, |a|) * Eval(b, x)
  {
    if |a| == 0 {
      assert a + b == b;
    } else {
      var t := a[1..];
      EvalConcat(t, b, x);
      assert (a + b)[1..] == t + b;
      PowSucc(x, |t|);
      ConcatStep(x, Pow(x, |t|), Eval(t, x), Eval(b, x));
    }
  }

  lemma {:induction false} ConcatStep(x: int, p: int, e: int, f: int)
    ensures x * (e + p * f) == x * e + (x * p) * f
  {
    assert x * (e + p * f) == x * e + x * (p * f);
    assert x * (p * f) == (x * p) * f;
  }

  lemma {:induction false} EvalComb(a: seq<int>, b: seq<int>, z: int, x: int)
    requires |a| == |b|
    ensures Eval(Comb(a, b, z), x) == Eval(a, x) + z * Eval(b, x)
  {
    if |a| > 0 {
      EvalComb(a[1..], b[1..], z, x);
      assert Comb(a, b, z)[1..] == Comb(a[1..], b[1..], z);
      CombStep(a[0], b[0], z, x, Eval(a[1..], x), Eval(b[1..], x));
    }
  }

  lemma {:induction false} CombStep(a: int, b: int, z: int, x: int, e: int, f: int)
    ensures (a + z * b) + x * (e + z * f) == (a + x * e) + z * (b + x * f)
  {
    assert x * (e + z * f) == x * e + x * (z * f);
    assert z * (b + x * f) == z * b + z * (x * f);
    assert x * (z * f) == z * (x * f);
  }

  // ---------------------------------------------------------------------------
  // One layer halves every block
  // ---------------------------------------------------------------------------

  /** Where block b of size w begins. */
  function Offset(b: nat, w: nat): nat {
    b * w
  }

  // What a layer does at one place of block b, which starts at sb.
  lemma {:induction false} FwdIs(s: seq<int>, len: nat, start: nat, k: nat, n: nat, b: nat, sb: nat, p: nat)
    requires b < n && start + Offset(n, 2 * len) <= |s| && sb == start + Offset(b, 2 * len) && sb + 2 * len <= |s|
    requires sb <= p < sb + 2 * len
    ensures Fwd(s, len, start, k, n)[p] == FwdAt(s, sb, len, Z(k + b), p)
    decreases n
  {
    hide Z, FwdAt, Offset;
    RoomFor(n, 2 * len);
    var s' := FwdBlock(s, start, len, Z(k));
    if b == 0 {
      FwdBelow(s', len, start + 2 * len, k + 1, n - 1);
    } else {
      RoomFor(b, 2 * len);
      FwdIs(s', len, start + 2 * len, k + 1, n - 1, b - 1, sb, p);
      Outside(s, start, len, Z(k));
      AtSame(s', s, sb, len, Z(k + b), p);
    }
  }

  lemma {:induction false} RoomFor(n: nat, w: nat)
    requires n > 0
    ensures Offset(n, w) == w + Offset(n - 1, w) && Offset(0, w) == 0
  {
    assert n * w == w + (n - 1) * w;
  }

  lemma {:induction false} AtSame(s': seq<int>, s: seq<int>, sb: nat, len: nat, z: int, p: nat)
    requires |s'| == |s| && sb + 2 * len <= |s| && sb <= p < sb + 2 * len
    requires forall i :: sb <= i < |s| ==> s'[i] == s[i]
    ensures FwdAt(s', sb, len, z, p) == FwdAt(s, sb, len, z, p)
  {
  }

  /** Block b of size w. */
  function Block(s: seq<int>, w: nat, b: nat): seq<int> {
    if Offset(b, w) + w <= |s| then s[Offset(b, w)..Offset(b, w) + w] else []
  }

  lemma {:induction false} BlocksFit(l: nat, b: nat)
    requires l <= 8 && b < Two(l)
    ensures Offset(b, Two(8 - l)) + Two(8 - l) <= N
  {
    TwoAdd(l, 8 - l);
    assert Two(8) == 256;
    MulMono(b + 1, Two(l), Two(8 - l));
    assert (b + 1) * Two(8 - l) == b * Two(8 - l) + Two(8 - l);
  }

  lemma {:induction false} LayerFits(l: nat)
    requires l < 8
    ensures Offset(Two(l), 2 * Two(7 - l)) == N
  {
    LayerRoom(l);
  }

  // One entry of each half of a block after a layer.
  lemma {:induction false} HalfEntry(s: seq<int>, l: nat, b: nat, w: nat, sb: nat, i: nat)
    requires |s| == N && l < 8 && b < Two(l) && w == Two(7 - l) && sb == Offset(b, 2 * w) && sb + 2 * w <= N && i < w
    ensures var lo, hi, z := s[sb..sb + w], s[sb + w..sb + 2 * w], Z(Two(l) + b);
      Layer(s, l)[sb + i] == Comb(lo, hi, z)[i] && Layer(s, l)[sb + w + i] == Comb(lo, hi, -z)[i]
  {
    hide Z, Fwd, Two, Offset, FwdAt, Comb;
    LayerFits(l);
    FwdIs(s, w, 0, Two(l), Two(l), b, sb, sb + i);
    FwdIs(s, w, 0, Two(l), Two(l), b, sb, sb + w + i);
    ButterflyIs(s, sb, w, Z(Two(l) + b), i);
  }

  lemma {:induction false} ButterflyIs(s: seq<int>, sb: nat, w: nat, z: int, i: nat)
    requires sb + 2 * w <= |s| && i < w
    ensures var lo, hi := s[sb..sb + w], s[sb + w..sb + 2 * w];
      FwdAt(s, sb, w, z, sb + i) == Comb(lo, hi, z)[i] && FwdAt(s, sb, w, z, sb + w + i) == Comb(lo, hi, -z)[i]
  {
    var lo, hi := s[sb..sb + w], s[sb + w..sb + 2 * w];
    assert lo[i] == s[sb + i] && hi[i] == s[sb + w + i];
    assert (-z) * hi[i] == -(z * hi[i]);
  }

  // The two halves of a block after a layer, from the block before it.
  lemma {:induction false} SplitBlock(s: seq<int>, l: nat, b: nat, w: nat, sb: nat)
    requires |s| == N && l < 8 && b < Two(l) && w == Two(7 - l) && sb == Offset(b, 2 * w) && sb + 2 * w <= N
    ensures var lo, hi, z := s[sb..sb + w], s[sb + w..sb + 2 * w], Z(Two(l) + b);
      Layer(s, l)[sb..sb + w] == Comb(lo, hi, z) && Layer(s, l)[sb + w..sb + 2 * w] == Comb(lo, hi, -z)
  {
    hide Z, Layer, Two, Offset, Comb;
    var r, z := Layer(s, l), Z(Two(l) + b);
    var lo, hi := s[sb..sb + w], s[sb + w..sb + 2 * w];
    var u, v := Comb(lo, hi, z), Comb(lo, hi, -z);
    forall i | 0 <= i < w
      ensures r[sb..sb + w][i] == u[i] && r[sb + w..sb + 2 * w][i] == v[i]
    {
      HalfEntry(s, l, b, w, sb, i);
    }
    SameSeq(r[sb..sb + w], u);
    SameSeq(r[sb + w..sb + 2 * w], v);
  }

  lemma {:induction false} SameSeq(a: seq<int>, b: seq<int>)
    requires |a| == |b| && forall i :: 0 <= i < |a| ==> a[i] == b[i]
    ensures a == b
  {
  }

  lemma {:induction false} HalfSize(l: nat)
    requires l < 8
    ensures Two(8 - l) == 2 * Two(7 - l) && Two(l + 1) == 2 * Two(l)
  {
  }

  // Where block b after layer l is, within the block it came from.
  lemma {:induction false} Where(l: nat, b: nat) returns (w: nat, sb: nat, at: nat)
    requires l < 8 && b < Two(l + 1)
    ensures w == Two(7 - l) && 2 * w == Two(8 - l) && b / 2 < Two(l)
    ensures sb == Offset(b / 2, 2 * w) && sb + 2 * w <= N && at == Offset(b, w) && at + w <= N
    ensures at == if b % 2 == 0 then sb else sb + w
  {
    HalfSize(l);
    var h := b / 2;
    hide Two, Offset;
    BlocksFit(l, h);
    BlocksFit(l + 1, b);
    w, sb, at := Two(7 - l), Offset(h, 2 * Two(7 - l)), Offset(b, Two(7 - l));
    HalfPlace(b, h, w);
  }

  lemma {:induction false} HalfPlace(b: nat, h: nat, w: nat)
    requires h == b / 2
    ensures Offset(b, w) == if b % 2 == 0 then Offset(h, 2 * w) else Offset(h, 2 * w) + w
  {
    if b % 2 == 0 {
      assert b == 2 * h;
      assert b * w == (2 * h) * w;
    } else {
      assert b == 2 * h + 1;
      assert b * w == (2 * h) * w + w;
    }
    assert (2 * h) * w == h * (2 * w);
  }

  lemma {:induction false} BlockIs(s: seq<int>, w: nat, b: nat, at: nat)
    requires at == Offset(b, w) && at + w <= |s|
    ensures Block(s, w, b) == s[at..at + w]
  {
  }

  // ---------------------------------------------------------------------------
  // Roots
  // ---------------------------------------------------------------------------

  /** The blocks after l layers are residues modulo X^(256 / 2^l) - Const(l, b). */
  function Const(l: nat, b: nat): int
    requires l <= 8
  {
    if l == 0 then -1
    else if b % 2 == 0 then Z(Two(l - 1) + b / 2)
    else -Z(Two(l - 1) + b / 2)
  }

  lemma {:induction false} RevWide(y: nat, n: nat)
    requires y < Two(n)
    ensures Rev(y, n + 1) == 2 * Rev(y, n)
  {
    hide Rev, Two;
    TwoStep(n);
    if n > 0 {
      RevWide(y / 2, n - 1);
      RevBit(y, n + 1);
      RevBit(y, n);
    } else {
      RevZero(0);
      RevZero(1);
    }
  }

  // The square of a twiddle factor is the constant of the block it splits.
  lemma {:induction false} ZetaSquared(l: nat, b: nat)
    requires l < 8 && b < Two(l)
    ensures Cong(Z(Two(l) + b) * Z(Two(l) + b), Const(l, b), Q)
  {
    hide Cong, Pow, Rev;
    var k := Two(l) + b;
    var e := Rev(k, 8);
    PowAdd(ZETA, e, e);
    RootNegative();
    if l == 0 {
      RevOne(8);
      assert Two(7) == 128;
    } else {
      HalfIndex(l, b);
      var y := k / 2;
      RevBit(k, 8);
      RevWide(y, 7);
      assert Two(7) == 128;
      if b % 2 == 0 {
        CongRefl(Z(y), Q);
      } else {
        PowAdd(ZETA, 256, Rev(y, 8));
        CongRefl(Z(y), Q);
        CongMul(Pow(ZETA, 256), -1, Z(y), Z(y), Q);
      }
    }
  }

  lemma {:induction false} HalfIndex(l: nat, b: nat)
    requires 0 < l < 8 && b < Two(l)
    ensures (Two(l) + b) / 2 == Two(l - 1) + b / 2 && (Two(l) + b) % 2 == b % 2 && (Two(l) + b) / 2 < Two(7)
  {
    TwoGrows(l, 7);
  }

  lemma {:induction false} TwoGrows(a: nat, b: nat)
    requires a <= b
    ensures Two(a) <= Two(b)
    decreases b - a
  {
    if a < b {
      TwoGrows(a, b - 1);
    }
  }

  // If x is a root for a block it is one for the block that was split.
  lemma {:induction false} RootAbove(l: nat, b: nat, x: int)
    requires l < 8 && b < Two(l + 1) && Cong(Pow(x, Two(7 - l)), Const(l + 1, b), Q)
    ensures b / 2 < Two(l) && Cong(Pow(x, Two(8 - l)), Const(l, b / 2), Q)
  {
    hide Cong, Pow, Z;
    HalfSize(l);
    var w, c, z := Two(7 - l), Const(l + 1, b), Z(Two(l) + b / 2);
    PowAdd(x, w, w);
    CongMul(Pow(x, w), c, Pow(x, w), c, Q);
    assert c * c == z * z;
    ZetaSquared(l, b / 2);
    CongTrans(Pow(x, Two(8 - l)), z * z, Const(l, b / 2), Q);
  }

  /** Each layer preserves the value of the polynomial at the roots of each of its blocks. */
  lemma {:induction false} BlockEvaluates(s: seq<int>, l: nat, b: nat, x: int)
    requires |s| == N && l <= 8 && b < Two(l) && Cong(Pow(x, Two(8 - l)), Const(l, b), Q)
    ensures Cong(Eval(Block(Transform(s, l), Two(8 - l), b), x), Eval(s, x), Q)
    decreases l
  {
    hide Cong, Pow, Z, Layer, Eval, Const, Two, Block;
    if l == 0 {
      NoLayers(s, b);
      CongRefl(Eval(s, x), Q);
    } else {
      RootAbove(l - 1, b, x);
      var t, b' := Transform(s, l - 1), b / 2;
      BlockEvaluates(s, l - 1, b', x);
      BlockSplit(t, l - 1, b, x);
      CongTrans(Eval(Block(Layer(t, l - 1), Two(8 - l), b), x), Eval(Block(t, Two(9 - l), b'), x), Eval(s, x), Q);
    }
  }

  lemma {:induction false} NoLayers(s: seq<int>, b: nat)
    requires |s| == N && b < Two(0)
    ensures b == 0 && Two(8) == N && Block(s, Two(8), b) == s
  {
    assert Two(8) == 256;
    assert Block(s, 256, 0) == s;
  }

  // One layer, at one of the two blocks a block is split into.
  lemma {:induction false} BlockSplit(t: seq<int>, l: nat, b: nat, x: int)
    requires |t| == N && l < 8 && b < Two(l + 1) && b / 2 < Two(l) && Cong(Pow(x, Two(7 - l)), Const(l + 1, b), Q)
    ensures Cong(Eval(Block(Layer(t, l), Two(7 - l), b), x), Eval(Block(t, Two(8 - l), b / 2), x), Q)
  {
    hide Cong, Pow, Z, Layer, Eval, Two, Block, Comb, Const;
    var lo, hi := SplitParts(t, l, b);
    SplitValue(lo, hi, Const(l + 1, b), x);
  }

  lemma {:induction false} SplitParts(t: seq<int>, l: nat, b: nat) returns (lo: seq<int>, hi: seq<int>)
    requires |t| == N && l < 8 && b < Two(l + 1) && b / 2 < Two(l)
    ensures |lo| == |hi| == Two(7 - l) && Block(t, Two(8 - l), b / 2) == lo + hi
    ensures Block(Layer(t, l), Two(7 - l), b) == Comb(lo, hi, Const(l + 1, b))
  {
    hide Z, Layer, Two, Block, Comb, Const, Offset;
    var h := b / 2;
    var w, sb, at := Where(l, b);
    lo, hi := t[sb..sb + w], t[sb + w..sb + 2 * w];
    assert Block(t, 2 * w, h) == lo + hi by {
      BlockIs(t, 2 * w, h, sb);
      assert t[sb..sb + 2 * w] == lo + hi;
    }
    assert Block(Layer(t, l), w, b) == Comb(lo, hi, Const(l + 1, b)) by {
      HalfIs(t, l, b, h, w, sb, at, lo, hi);
    }
  }

  lemma {:induction false} HalfIs(t: seq<int>, l: nat, b: nat, h: nat, w: nat, sb: nat, at: nat, lo: seq<int>,
                                  hi: seq<int>)
    requires |t| == N && l < 8 && h == b / 2 < Two(l) && w == Two(7 - l) && sb == Offset(h, 2 * w) && sb + 2 * w <= N
    requires at == Offset(b, w) && at + w <= N && at == (if b % 2 == 0 then sb else sb + w)
    requires lo == t[sb..sb + w] && hi == t[sb + w..sb + 2 * w]
    ensures Block(Layer(t, l), w, b) == Comb(lo, hi, Const(l + 1, b))
  {
    hide Z, Layer, Two, Block, Comb, Const, Offset;
    ConstIs(l, b);
    SplitBlock(t, l, h, w, sb);
    BlockIs(Layer(t, l), w, b, at);
  }

  lemma {:induction false} ConstIs(l: nat, b: nat)
    requires l < 8
    ensures Const(l + 1, b) == if b % 2 == 0 then Z(Two(l) + b / 2) else -Z(Two(l) + b / 2)
  {
  }

  lemma {:induction false} SplitValue(lo: seq<int>, hi: seq<int>, c: int, x: int)
    requires |lo| == |hi| && Cong(Pow(x, |lo|), c, Q)
    ensures Cong(Eval(Comb(lo, hi, c), x), Eval(lo + hi, x), Q)
  {
    hide Cong, Pow, Eval, Comb;
    EvalComb(lo, hi, c, x);
    EvalConcat(lo, hi, x);
    var e, f, p := Eval(lo, x), Eval(hi, x), Pow(x, |lo|);
    CongRefl(f, Q);
    CongRefl(e, Q);
    CongMul(p, c, f, f, Q);
    CongAdd(e, e, p * f, c * f, Q);
    CongSym(e + p * f, e + c * f, Q);
  }

  /** The i-th root of X^256 + 1 modulo q, in the order of the transform. */
  function Root(i: nat): int {
    Const(8, i)
  }

  lemma {:induction false} RootIs(i: nat)
    ensures Cong(Pow(Root(i), Two(0)), Const(8, i), Q)
  {
    assert Pow(Root(i), 1) == Root(i) * Pow(Root(i), 0);
    CongRefl(Root(i), Q);
  }

  lemma {:induction false} RootChain(l: nat, b: nat, x: int)
    requires l <= 8 && b < Two(l) && Cong(Pow(x, Two(8 - l)), Const(l, b), Q)
    ensures Cong(Pow(x, N), -1, Q)
    decreases l
  {
    hide Cong, Pow, Z;
    if l == 0 {
      assert Two(8) == 256;
    } else {
      RootAbove(l - 1, b, x);
      RootChain(l - 1, b / 2, x);
    }
  }

  /** Entry i of the transform is the polynomial's value at the i-th root of X^256 + 1. */
  lemma {:induction false} TransformEvaluates(s: seq<int>, i: nat)
    requires |s| == N && i < N
    ensures Cong(Pow(Root(i), N), -1, Q) && Cong(Transform(s, 8)[i], Eval(s, Root(i)), Q)
  {
    hide Cong, Pow, Const, Transform;
    assert Two(8) == 256 && Two(0) == 1;
    RootIs(i);
    RootChain(8, i, Root(i));
    BlockEvaluates(s, 8, i, Root(i));
    var t := Transform(s, 8);
    assert Block(t, 1, i) == [t[i]];
    EvalOne(t[i], Root(i));
  }

  lemma {:induction false} EvalOne(c: int, x: int)
    ensures Eval([c], x) == c
  {
    assert [c][1..] == [];
  }

  // ---------------------------------------------------------------------------
  // Multiplication modulo X^256 + 1
  // ---------------------------------------------------------------------------

  /** X times v modulo X^256 + 1. */
  function TimesX(v: seq<int>): (r: seq<int>)
    requires |v| == N
    ensures |r| == N
  {
    [-v[N - 1]] + v[..N - 1]
  }

  /** a times b modulo X^256 + 1, by Horner's rule. */
  function RingMul(a: seq<int>, b: seq<int>): (r: seq<int>)
    requires |b| == N
    ensures |r| == N
  {
    if |a| == 0 then seq(N, _ => 0) else Comb(TimesX(RingMul(a[1..], b)), b, a[0])
  }

  /** Coefficient m of X^256 + 1 residues, read beyond the ends: X^256 is -1. */
  function Wrapped(b: seq<int>, m: int): int
    requires |b| == N && 0 <= m + N && m < N
  {
    if m >= 0 then b[m] else -b[m + N]
  }

  /** The sum of a[j] times coefficient k - j of b. */
  function Convolved(a: seq<int>, b: seq<int>, k: int): int
    requires |b| == N && |a| <= k + N + 1 && 0 <= k + N && k < N
  {
    if |a| == 0 then 0
    else a[0] * Wrapped(b, k) + if |a| == 1 then 0 else Convolved(a[1..], b, k - 1)
  }

  lemma {:induction false} ConvolvedWraps(a: seq<int>, b: seq<int>, k: int)
    requires |b| == N && k < 0 && |a| <= k + N + 1 && 0 <= k + N
    ensures Convolved(a, b, k) == -Convolved(a, b, k + N)
  {
    if |a| > 0 {
      assert Wrapped(b, k) == -Wrapped(b, k + N);
      assert a[0] * -Wrapped(b, k + N) == -(a[0] * Wrapped(b, k + N));
      if |a| > 1 {
        ConvolvedWraps(a[1..], b, k - 1);
      }
    }
  }

  /** Horner's rule gives the textbook negacyclic convolution. */
  lemma {:induction false} RingMulIs(a: seq<int>, b: seq<int>, k: nat)
    requires |b| == N && |a| <= N && k < N
    ensures RingMul(a, b)[k] == Convolved(a, b, k)
  {
    if |a| > 0 {
      var t := a[1..];
      var v := RingMul(t, b);
      if k > 0 {
        RingMulIs(t, b, k - 1);
        assert TimesX(v)[k] == v[k - 1];
      } else {
        RingMulIs(t, b, N - 1);
        assert TimesX(v)[0] == -v[N - 1];
        if |t| > 0 {
          ConvolvedWraps(t, b, -1);
        }
      }
    }
  }

  lemma {:induction false} EvalTimesX(v: seq<int>, x: int)
    requires |v| == N && Cong(Pow(x, N), -1, Q)
    ensures Cong(Eval(TimesX(v), x), x * Eval(v, x), Q)
  {
    hide Cong, Pow;
    var u, c := v[..N - 1], v[N - 1];
    assert v == u + [c];
    EvalConcat(u, [c], x);
    EvalOne(c, x);
    assert TimesX(v)[1..] == u;
    PowSucc(x, N - 1);
    hide Eval;
    TimesXStep(x, Pow(x, N - 1), Eval(u, x), c);
  }

  lemma {:induction false} TimesXStep(x: int, q: int, e: int, c: int)
    requires Cong(x * q, -1, Q)
    ensures Cong(-c + x * e, x * (e + q * c), Q)
  {
    hide Cong;
    ConcatStep(x, q, e, c);
    CongRefl(c, Q);
    CongMul(x * q, -1, c, c, Q);
    CongRefl(x * e, Q);
    CongAdd(x * e, x * e, (x * q) * c, -1 * c, Q);
    CongSym(x * e + (x * q) * c, x * e + -1 * c, Q);
  }

  lemma {:induction false} EvalZeros(n: nat, x: int)
    ensures Eval(seq(n, _ => 0), x) == 0
  {
    if n > 0 {
      EvalZeros(n - 1, x);
      assert seq(n, _ => 0)[1..] == seq(n - 1, _ => 0);
    }
  }

  /** At a root of X^256 + 1, multiplying polynomials multiplies values. */
  lemma {:induction false} EvalRingMul(a: seq<int>, b: seq<int>, x: int)
    requires |b| == N && Cong(Pow(x, N), -1, Q)
    ensures Cong(Eval(RingMul(a, b), x), Eval(a, x) * Eval(b, x), Q)
  {
    hide Cong, Pow;
    if |a| == 0 {
      EvalZeros(N, x);
      CongRefl(0, Q);
    } else {
      var v := RingMul(a[1..], b);
      EvalRingMul(a[1..], b, x);
      EvalTimesX(v, x);
      EvalComb(TimesX(v), b, a[0], x);
      HornerStep(Eval(TimesX(v), x), Eval(v, x), Eval(a[1..], x), Eval(b, x), a[0], x);
    }
  }

  lemma {:induction false} HornerStep(s: int, v: int, e: int, f: int, c: int, x: int)
    requires Cong(s, x * v, Q) && Cong(v, e * f, Q)
    ensures Cong(s + c * f, (c + x * e) * f, Q)
  {
    hide Cong;
    CongRefl(x, Q);
    CongMul(x, x, v, e * f, Q);
    CongTrans(s, x * v, x * (e * f), Q);
    CongRefl(c * f, Q);
    CongAdd(s, x * (e * f), c * f, c * f, Q);
    assert x * (e * f) == (x * e) * f;
    assert (c + x * e) * f == c * f + (x * e) * f;
  }

  /** Multiplying transforms entry by entry multiplies polynomials modulo X^256 + 1. */
  lemma {:induction false} ProductPointwise(a: seq<int>, b: seq<int>, i: nat)
    requires |a| == |b| == N && i < N
    ensures Cong(Transform(RingMul(a, b), 8)[i], Transform(a, 8)[i] * Transform(b, 8)[i], Q)
  {
    hide Cong, Pow, Const, Transform, RingMul, Eval, Root;
    var x, c := Root(i), RingMul(a, b);
    TransformEvaluates(c, i);
    TransformEvaluates(a, i);
    TransformEvaluates(b, i);
    EvalRingMul(a, b, x);
    var u, v := Transform(a, 8)[i], Transform(b, 8)[i];
    CongMul(u, Eval(a, x), v, Eval(b, x), Q);
    CongSym(u * v, Eval(a, x) * Eval(b, x), Q);
    CongTrans(Transform(c, 8)[i], Eval(c, x), Eval(a, x) * Eval(b, x), Q);
    CongTrans(Transform(c, 8)[i], Eval(a, x) * Eval(b, x), u * v, Q);
  }

  /** The transform is linear. */
  lemma {:induction false} TransformLinear(a: seq<int>, b: seq<int>, z: int, i: nat)
    requires |a| == |b| == N && i < N
    ensures Cong(Transform(Comb(a, b, z), 8)[i], Transform(a, 8)[i] + z * Transform(b, 8)[i], Q)
  {
    hide Cong, Pow, Const, Transform, Eval, Root, Comb;
    var x, c := Root(i), Comb(a, b, z);
    TransformEvaluates(c, i);
    TransformEvaluates(a, i);
    TransformEvaluates(b, i);
    EvalComb(a, b, z, x);
    var u, v := Transform(a, 8)[i], Transform(b, 8)[i];
    CongRefl(z, Q);
    CongMul(z, z, v, Eval(b, x), Q);
    CongAdd(u, Eval(a, x), z * v, z * Eval(b, x), Q);
    CongSym(u + z * v, Eval(c, x), Q);
    CongTrans(Transform(c, 8)[i], Eval(c, x), u + z * v, Q);
  }

  /** Polynomials with the same transform are the same modulo q. */
  lemma {:induction false} TransformInjective(a: seq<int>, b: seq<int>)
    requires |a| == |b| == N && Scaled(Transform(a, 8), Transform(b, 8), 1)
    ensures Scaled(a, b, 1)
  {
    hide Cong, Transform, Untransform;
    UntransformScaled(Transform(a, 8), Transform(b, 8), 1, 8);
    RoundTrip(a, 8);
    RoundTrip(b, 8);
    var u, v := Untransform(Transform(a, 8), 8), Untransform(Transform(b, 8), 8);
    assert Two(8) == 256;
    forall p | 0 <= p < N
      ensures Cong(a[p], 1 * b[p], Q)
    {
      assert Cong(u[p], 1 * v[p], Q) && Cong(u[p], 256 * a[p], Q) && Cong(v[p], 256 * b[p], Q);
      Halved256(u[p], v[p], a[p], b[p]);
    }
  }

  lemma {:induction false} Halved256(u: int, v: int, a: int, b: int)
    requires Cong(u, v, Q) && Cong(u, 256 * a, Q) && Cong(v, 256 * b, Q)
    ensures Cong(a, b, Q)
  {
    hide Cong;
    CongSym(u, 256 * a, Q);
    CongTrans(256 * a, u, v, Q);
    CongTrans(256 * a, v, 256 * b, Q);
    CongRefl(INV256, Q);
    CongMul(256 * a, 256 * b, INV256, INV256, Q);
    Inverse256(a);
    Inverse256(b);
    CongSym(256 * a * INV256, a, Q);
    CongTrans(a, 256 * a * INV256, 256 * b * INV256, Q);
    CongTrans(a, 256 * b * INV256, b, Q);
  }

  /** 1/256 modulo q. */
  const INV256: int := 8347681

  lemma {:induction false} Inverse256(a: int)
    ensures Cong(256 * a * INV256, a, Q)
  {
    CongFromQuotient(256 * a * INV256, a, 255 * a, Q);
  }
}
