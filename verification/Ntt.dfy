/**
 The number-theoretic transform of ML-DSA and its inverse (src/crypto/mldsa.c, algorithms 41
 and 42 of FIPS 204), as functions on coefficients up to congruence modulo q.
 */
module Ntt {
  import opened Words
  import opened ModArith
  import opened Mldsa

  /** a is c times b, coefficient by coefficient, modulo q. */
  ghost predicate Scaled(a: seq<int>, b: seq<int>, c: int) {
    |a| == |b| && forall p :: 0 <= p < |a| ==> Cong(a[p], c * b[p], Q)
  }

  lemma {:induction false} ScaledSelf(a: seq<int>)
    ensures Scaled(a, a, 1)
  {
    hide Cong;
    forall p | 0 <= p < |a|
      ensures Cong(a[p], 1 * a[p], Q)
    {
      CongRefl(a[p], Q);
    }
  }

  lemma {:induction false} ScaledTrans(a: seq<int>, b: seq<int>, d: seq<int>, c: int, e: int)
    requires Scaled(a, b, c) && Scaled(b, d, e)
    ensures Scaled(a, d, c * e)
  {
    hide Cong;
    forall p | 0 <= p < |a|
      ensures Cong(a[p], c * e * d[p], Q)
    {
      CongRefl(c, Q);
      CongMul(c, c, b[p], e * d[p], Q);
      assert c * (e * d[p]) == c * e * d[p];
      CongTrans(a[p], c * b[p], c * e * d[p], Q);
    }
  }

  // ---------------------------------------------------------------------------
  // Butterflies
  // ---------------------------------------------------------------------------

  /** One block of a forward layer: (x, y) becomes (x + z y, x - z y). */
  function FwdAt(s: seq<int>, start: nat, len: nat, z: int, p: nat): int
    requires start + 2 * len <= |s| && p < |s|
  {
    if start <= p < start + len then s[p] + z * s[p + len]
    else if start + len <= p < start + 2 * len then s[p - len] - z * s[p]
    else s[p]
  }

  function FwdBlock(s: seq<int>, start: nat, len: nat, z: int): (r: seq<int>)
    requires start + 2 * len <= |s|
    ensures |r| == |s| && forall p :: 0 <= p < |s| ==> r[p] == FwdAt(s, start, len, z, p)
  {
    seq(|s|, p requires 0 <= p < |s| => FwdAt(s, start, len, z, p))
  }

  /** One block of an inverse layer: (x, y) becomes (x + y, -z (x - y)). */
  function InvAt(s: seq<int>, start: nat, len: nat, z: int, p: nat): int
    requires start + 2 * len <= |s| && p < |s|
  {
    if start <= p < start + len then s[p] + s[p + len]
    else if start + len <= p < start + 2 * len then -z * (s[p - len] - s[p])
    else s[p]
  }

  function InvBlock(s: seq<int>, start: nat, len: nat, z: int): (r: seq<int>)
    requires start + 2 * len <= |s|
    ensures |r| == |s| && forall p :: 0 <= p < |s| ==> r[p] == InvAt(s, start, len, z, p)
  {
    seq(|s|, p requires 0 <= p < |s| => InvAt(s, start, len, z, p))
  }

  lemma {:induction false} Outside(s: seq<int>, start: nat, len: nat, z: int)
    requires start + 2 * len <= |s|
    ensures forall p :: 0 <= p < |s| && !(start <= p < start + 2 * len) ==> FwdBlock(s, start, len, z)[p] == s[p]
    ensures forall p :: 0 <= p < |s| && !(start <= p < start + 2 * len) ==> InvBlock(s, start, len, z)[p] == s[p]
  {
  }

  /** A forward layer, n blocks from start on, the twiddle index going up. */
  function Fwd(s: seq<int>, len: nat, start: nat, k: nat, n: nat): (r: seq<int>)
    ensures |r| == |s|
    decreases n
  {
    if n == 0 || start + 2 * len > |s| then s
    else Fwd(FwdBlock(s, start, len, Z(k)), len, start + 2 * len, k + 1, n - 1)
  }

  /** An inverse layer, the twiddle index going down. */
  function Inv(s: seq<int>, len: nat, start: nat, k: int, n: nat): (r: seq<int>)
    ensures |r| == |s|
    decreases n
  {
    if n == 0 || start + 2 * len > |s| || k < 0 then s
    else Inv(InvBlock(s, start, len, Z(k)), len, start + 2 * len, k - 1, n - 1)
  }

  lemma {:induction false} FwdBelow(s: seq<int>, len: nat, start: nat, k: nat, n: nat)
    ensures forall p :: 0 <= p < start && p < |s| ==> Fwd(s, len, start, k, n)[p] == s[p]
    decreases n
  {
    hide Z, FwdBlock, FwdAt;
    if n > 0 && start + 2 * len <= |s| {
      Outside(s, start, len, Z(k));
      FwdBelow(FwdBlock(s, start, len, Z(k)), len, start + 2 * len, k + 1, n - 1);
    }
  }

  lemma {:induction false} InvBelow(s: seq<int>, len: nat, start: nat, k: int, n: nat)
    ensures forall p :: 0 <= p < start && p < |s| ==> Inv(s, len, start, k, n)[p] == s[p]
    decreases n
  {
    hide Z, InvBlock, InvAt;
    if n > 0 && start + 2 * len <= |s| && k >= 0 {
      Outside(s, start, len, Z(k));
      InvBelow(InvBlock(s, start, len, Z(k)), len, start + 2 * len, k - 1, n - 1);
    }
  }

  /** A butterfly and then its inverse: twice what went in. */
  lemma {:induction false} Undone(x: int, y: int, z: int, z': int)
    requires Cong(z * z', -1, Q)
    ensures (x + z * y) + (x - z * y) == 2 * x
    ensures Cong(-z' * ((x + z * y) - (x - z * y)), 2 * y, Q)
  {
    hide Cong;
    CongRefl(-2 * y, Q);
    CongMul(z * z', -1, -2 * y, -2 * y, Q);
    assert -z' * ((x + z * y) - (x - z * y)) == z * z' * (-2 * y);
  }

  /** And the other way round. */
  lemma {:induction false} Redone(x: int, y: int, z: int, z': int)
    requires Cong(z * z', -1, Q)
    ensures Cong((x + y) + z * (-z' * (x - y)), 2 * x, Q)
    ensures Cong((x + y) - z * (-z' * (x - y)), 2 * y, Q)
  {
    hide Cong;
    var d := x - y;
    CongRefl(d, Q);
    CongMul(z * z', -1, d, d, Q);
    assert z * (-z' * d) == -(z * z' * d);
    CongRefl(x + y, Q);
    CongAdd(x + y, x + y, z * z' * d, -1 * d, Q);
  }

  lemma {:induction false} Room(n: nat, len: nat)
    requires n > 0
    ensures n * (2 * len) == 2 * len + (n - 1) * (2 * len) && (n - 1) * (2 * len) >= 0
  {
  }

  /** The twiddle indices going up from k and down from k' undo each other. */
  ghost predicate Paired(k: nat, k': int, n: nat)
    decreases n
  {
    n == 0 || (k' >= 0 && Cong(Z(k) * Z(k'), -1, Q) && Paired(k + 1, k' - 1, n - 1))
  }

  /** Inverse over forward within one block. */
  lemma {:induction false} BlockUndone(s: seq<int>, f: seq<int>, start: nat, len: nat, z: int, z': int, p: nat)
    requires start + 2 * len <= |s| == |f| && start <= p < start + 2 * len && Cong(z * z', -1, Q)
    requires forall i :: start <= i < start + 2 * len ==> f[i] == FwdBlock(s, start, len, z)[i]
    ensures Cong(InvBlock(f, start, len, z')[p], 2 * s[p], Q)
  {
    hide Cong;
    if p < start + len {
      Undone(s[p], s[p + len], z, z');
      CongRefl(2 * s[p], Q);
    } else {
      Undone(s[p - len], s[p], z, z');
    }
  }

  /** Forward over inverse within one block. */
  lemma {:induction false} BlockRedone(s: seq<int>, f: seq<int>, start: nat, len: nat, z: int, z': int, p: nat)
    requires start + 2 * len <= |s| == |f| && start <= p < start + 2 * len && Cong(z * z', -1, Q)
    requires forall i :: start <= i < start + 2 * len ==> f[i] == InvBlock(s, start, len, z')[i]
    ensures Cong(FwdBlock(f, start, len, z)[p], 2 * s[p], Q)
  {
    hide Cong;
    if p < start + len {
      Redone(s[p], s[p + len], z, z');
    } else {
      Redone(s[p - len], s[p], z, z');
    }
  }

  /** An inverse layer over a forward layer doubles every coefficient. */
  lemma {:induction false} LayerUndone(s: seq<int>, f: seq<int>, len: nat, start: nat, k: nat, k': int, n: nat)
    requires start + n * (2 * len) == |s| == |f| && Paired(k, k', n)
    requires forall p :: start <= p < |s| ==> f[p] == Fwd(s, len, start, k, n)[p]
    ensures var g := Inv(f, len, start, k', n);
      && (forall p :: 0 <= p < start ==> g[p] == f[p]) && (forall p :: start <= p < |s| ==> Cong(g[p], 2 * s[p], Q))
    decreases n
  {
    hide Cong, Z, FwdBlock, InvBlock, FwdAt, InvAt;
    if n > 0 {
      Room(n, len);
      var e := start + 2 * len;
      var s1, f1 := FwdBlock(s, start, len, Z(k)), InvBlock(f, start, len, Z(k'));
      Outside(s, start, len, Z(k));
      Outside(f, start, len, Z(k'));
      FwdBelow(s1, len, e, k + 1, n - 1);
      LayerUndone(s1, f1, len, e, k + 1, k' - 1, n - 1);
      forall p | start <= p < e
        ensures Cong(f1[p], 2 * s[p], Q)
      {
        BlockUndone(s, f, start, len, Z(k), Z(k'), p);
      }
    }
  }

  /** A forward layer over an inverse layer doubles every coefficient. */
  lemma {:induction false} LayerRedone(s: seq<int>, f: seq<int>, len: nat, start: nat, k: nat, k': int, n: nat)
    requires start + n * (2 * len) == |s| == |f| && Paired(k, k', n)
    requires forall p :: start <= p < |s| ==> f[p] == Inv(s, len, start, k', n)[p]
    ensures var g := Fwd(f, len, start, k, n);
      && (forall p :: 0 <= p < start ==> g[p] == f[p]) && (forall p :: start <= p < |s| ==> Cong(g[p], 2 * s[p], Q))
    decreases n
  {
    hide Cong, Z, FwdBlock, InvBlock, FwdAt, InvAt;
    if n > 0 {
      Room(n, len);
      var e := start + 2 * len;
      var s1, f1 := InvBlock(s, start, len, Z(k')), FwdBlock(f, start, len, Z(k));
      Outside(s, start, len, Z(k'));
      Outside(f, start, len, Z(k));
      InvBelow(s1, len, e, k' - 1, n - 1);
      LayerRedone(s1, f1, len, e, k + 1, k' - 1, n - 1);
      forall p | start <= p < e
        ensures Cong(f1[p], 2 * s[p], Q)
      {
        BlockRedone(s, f, start, len, Z(k), Z(k'), p);
      }
    }
  }

  // ---------------------------------------------------------------------------
  // Layers are linear
  // ---------------------------------------------------------------------------

  lemma {:induction false} CombineCong(x: int, y: int, x': int, y': int, z: int, c: int)
    requires Cong(x, c * x', Q) && Cong(y, c * y', Q)
    ensures Cong(x + z * y, c * (x' + z * y'), Q) && Cong(x - z * y, c * (x' - z * y'), Q)
  {
    hide Cong;
    CongRefl(z, Q);
    CongMul(z, z, y, c * y', Q);
    CongAdd(x, c * x', z * y, z * (c * y'), Q);
    assert c * x' + z * (c * y') == c * (x' + z * y');
    assert c * x' - z * (c * y') == c * (x' - z * y');
  }

  lemma {:induction false} FwdBlockScaled(a: seq<int>, b: seq<int>, c: int, start: nat, len: nat, z: int)
    requires Scaled(a, b, c) && start + 2 * len <= |a|
    ensures Scaled(FwdBlock(a, start, len, z), FwdBlock(b, start, len, z), c)
  {
    hide Cong, FwdAt;
    forall p | 0 <= p < |a|
      ensures Cong(FwdBlock(a, start, len, z)[p], c * FwdBlock(b, start, len, z)[p], Q)
    {
      FwdAtScaled(a, b, c, start, len, z, p);
    }
  }

  lemma {:induction false} FwdAtScaled(a: seq<int>, b: seq<int>, c: int, start: nat, len: nat, z: int, p: nat)
    requires Scaled(a, b, c) && start + 2 * len <= |a| && p < |a|
    ensures Cong(FwdAt(a, start, len, z, p), c * FwdAt(b, start, len, z, p), Q)
  {
    hide Cong;
    if start <= p < start + len {
      CombineCong(a[p], a[p + len], b[p], b[p + len], z, c);
    } else if start + len <= p < start + 2 * len {
      CombineCong(a[p - len], a[p], b[p - len], b[p], z, c);
    }
  }

  lemma {:induction false} DiffCong(x: int, y: int, x': int, y': int, z: int, c: int)
    requires Cong(x, c * x', Q) && Cong(y, c * y', Q)
    ensures Cong(-z * (x - y), c * (-z * (x' - y')), Q)
  {
    hide Cong;
    CongAdd(x, c * x', y, c * y', Q);
    CongRefl(-z, Q);
    CongMul(-z, -z, x - y, c * x' - c * y', Q);
    assert -z * (c * x' - c * y') == c * (-z * (x' - y'));
  }

  lemma {:induction false} InvBlockScaled(a: seq<int>, b: seq<int>, c: int, start: nat, len: nat, z: int)
    requires Scaled(a, b, c) && start + 2 * len <= |a|
    ensures Scaled(InvBlock(a, start, len, z), InvBlock(b, start, len, z), c)
  {
    hide Cong, InvAt;
    forall p | 0 <= p < |a|
      ensures Cong(InvBlock(a, start, len, z)[p], c * InvBlock(b, start, len, z)[p], Q)
    {
      InvAtScaled(a, b, c, start, len, z, p);
    }
  }

  lemma {:induction false} InvAtScaled(a: seq<int>, b: seq<int>, c: int, start: nat, len: nat, z: int, p: nat)
    requires Scaled(a, b, c) && start + 2 * len <= |a| && p < |a|
    ensures Cong(InvAt(a, start, len, z, p), c * InvAt(b, start, len, z, p), Q)
  {
    hide Cong;
    if start <= p < start + len {
      CombineCong(a[p], a[p + len], b[p], b[p + len], 1, c);
    } else if start + len <= p < start + 2 * len {
      DiffCong(a[p - len], a[p], b[p - len], b[p], z, c);
    }
  }

  lemma {:induction false} FwdScaled(a: seq<int>, b: seq<int>, c: int, len: nat, start: nat, k: nat, n: nat)
    requires Scaled(a, b, c)
    ensures Scaled(Fwd(a, len, start, k, n), Fwd(b, len, start, k, n), c)
    decreases n
  {
    hide Scaled, Z;
    assert |a| == |b| by {
      ScaledLen(a, b, c);
    }
    if n > 0 && start + 2 * len <= |a| {
      FwdBlockScaled(a, b, c, start, len, Z(k));
      FwdScaled(FwdBlock(a, start, len, Z(k)), FwdBlock(b, start, len, Z(k)), c, len, start + 2 * len, k + 1, n - 1);
    }
  }

  lemma {:induction false} ScaledLen(a: seq<int>, b: seq<int>, c: int)
    requires Scaled(a, b, c)
    ensures |a| == |b|
  {
  }

  lemma {:induction false} InvScaled(a: seq<int>, b: seq<int>, c: int, len: nat, start: nat, k: int, n: nat)
    requires Scaled(a, b, c)
    ensures Scaled(Inv(a, len, start, k, n), Inv(b, len, start, k, n), c)
    decreases n
  {
    hide Scaled, Z;
    assert |a| == |b| by {
      ScaledLen(a, b, c);
    }
    if n > 0 && start + 2 * len <= |a| && k >= 0 {
      InvBlockScaled(a, b, c, start, len, Z(k));
      InvScaled(InvBlock(a, start, len, Z(k)), InvBlock(b, start, len, Z(k)), c, len, start + 2 * len, k - 1, n - 1);
    }
  }

  // ---------------------------------------------------------------------------
  // The transforms
  // ---------------------------------------------------------------------------

  /** Forward layer l of eight: 2^l blocks, butterflies 2^(7 - l) apart. */
  function Layer(s: seq<int>, l: nat): (r: seq<int>)
    requires l < 8
    ensures |r| == |s|
  {
    Fwd(s, Two(7 - l), 0, Two(l), Two(l))
  }

  function UnLayer(s: seq<int>, l: nat): (r: seq<int>)
    requires l < 8
    ensures |r| == |s|
  {
    Inv(s, Two(7 - l), 0, 2 * Two(l) - 1, Two(l))
  }

  /** The first l forward layers. */
  function Transform(s: seq<int>, l: nat): (r: seq<int>)
    requires l <= 8
    ensures |r| == |s|
  {
    if l == 0 then s else Layer(Transform(s, l - 1), l - 1)
  }

  /** The inverse layers from l down. */
  function Untransform(s: seq<int>, l: nat): (r: seq<int>)
    requires l <= 8
    ensures |r| == |s|
    decreases l
  {
    if l == 0 then s else Untransform(UnLayer(s, l - 1), l - 1)
  }

  lemma {:induction false} TwoAdd(a: nat, b: nat)
    ensures Two(a) * Two(b) == Two(a + b)
  {
    if a > 0 {
      TwoAdd(a - 1, b);
      assert 2 * Two(a - 1) * Two(b) == 2 * (Two(a - 1) * Two(b));
    }
  }

  lemma {:induction false} LayerRoom(l: nat)
    requires l < 8
    ensures Two(l) * (2 * Two(7 - l)) == N
  {
    TwoAdd(l, 7 - l);
    assert Two(7) == 128;
    assert Two(l) * (2 * Two(7 - l)) == 2 * (Two(l) * Two(7 - l));
  }

  lemma {:induction false} PairedFrom(l: nat, b: nat, n: nat)
    requires l < 8 && b + n == Two(l)
    ensures Paired(Two(l) + b, 2 * Two(l) - 1 - b, n)
    decreases n
  {
    hide Cong, Z;
    if n > 0 {
      ZPair(l, b);
      PairedFrom(l, b + 1, n - 1);
    }
  }

  lemma {:induction false} UnLayerLayer(s: seq<int>, l: nat)
    requires |s| == N && l < 8
    ensures Scaled(UnLayer(Layer(s, l), l), s, 2) && Scaled(Layer(UnLayer(s, l), l), s, 2)
  {
    hide Cong, Paired, Fwd, Inv, Two;
    LayerRoom(l);
    PairedFrom(l, 0, Two(l));
    LayerUndone(s, Layer(s, l), Two(7 - l), 0, Two(l), 2 * Two(l) - 1, Two(l));
    LayerRedone(s, UnLayer(s, l), Two(7 - l), 0, Two(l), 2 * Two(l) - 1, Two(l));
  }

  lemma {:induction false} TransformScaled(a: seq<int>, b: seq<int>, c: int, l: nat)
    requires l <= 8 && Scaled(a, b, c)
    ensures Scaled(Transform(a, l), Transform(b, l), c)
  {
    hide Scaled, Fwd;
    if l > 0 {
      TransformScaled(a, b, c, l - 1);
      FwdScaled(Transform(a, l - 1), Transform(b, l - 1), c, Two(8 - l), 0, Two(l - 1), Two(l - 1));
    }
  }

  lemma {:induction false} UntransformScaled(a: seq<int>, b: seq<int>, c: int, l: nat)
    requires l <= 8 && Scaled(a, b, c)
    ensures Scaled(Untransform(a, l), Untransform(b, l), c)
    decreases l
  {
    hide Scaled, Inv;
    if l > 0 {
      InvScaled(a, b, c, Two(8 - l), 0, 2 * Two(l - 1) - 1, Two(l - 1));
      UntransformScaled(UnLayer(a, l - 1), UnLayer(b, l - 1), c, l - 1);
    }
  }

  /** The inverse layers undo the forward ones, up to a factor 2 for each. */
  lemma {:induction false} RoundTrip(s: seq<int>, l: nat)
    requires |s| == N && l <= 8
    ensures Scaled(Untransform(Transform(s, l), l), s, Two(l))
    decreases l
  {
    hide Scaled, Layer, UnLayer;
    if l == 0 {
      ScaledSelf(s);
    } else {
      var t := Transform(s, l - 1);
      UnLayerLayer(t, l - 1);
      UntransformScaled(UnLayer(Layer(t, l - 1), l - 1), t, 2, l - 1);
      RoundTrip(s, l - 1);
      ScaledTrans(Untransform(Transform(s, l), l), Untransform(t, l - 1), s, 2, Two(l - 1));
    }
  }

  /** And the forward layers the inverse ones. */
  lemma {:induction false} RoundTripBack(s: seq<int>, l: nat)
    requires |s| == N && l <= 8
    ensures Scaled(Transform(Untransform(s, l), l), s, Two(l))
    decreases l
  {
    hide Scaled, Layer, UnLayer;
    if l == 0 {
      ScaledSelf(s);
    } else {
      var u := UnLayer(s, l - 1);
      RoundTripBack(u, l - 1);
      var t := Transform(Untransform(u, l - 1), l - 1);
      LayerScaled(t, u, Two(l - 1), l - 1);
      UnLayerLayer(s, l - 1);
      ScaledTrans(Layer(t, l - 1), Layer(u, l - 1), s, Two(l - 1), 2);
    }
  }

  lemma {:induction false} LayerScaled(a: seq<int>, b: seq<int>, c: int, l: nat)
    requires l < 8 && Scaled(a, b, c)
    ensures Scaled(Layer(a, l), Layer(b, l), c)
  {
    hide Scaled, Fwd;
    FwdScaled(a, b, c, Two(7 - l), 0, Two(l), Two(l));
  }
}
