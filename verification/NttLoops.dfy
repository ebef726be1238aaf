/**
 ntt, invntt_tomont and the computation of w in ML-DSA verification (src/crypto/mldsa.c), in
 place and in 32-bit words.
 */
module NttLoops {
  import opened Words
  import opened ModArith
  import opened Mldsa
  import opened Ntt

  ghost predicate Bounded(s: seq<int>, lo: nat, hi: nat, b: int) {
    hi <= |s| && forall p :: lo <= p < hi ==> -b <= s[p] <= b
  }

  lemma {:induction false} R32Power()
    ensures Pow(2, 32) == R32
  {
    assert Pow(2, 8) == 256;
    PowAdd(2, 8, 8);
    PowAdd(2, 16, 16);
  }

  /** Montgomery reduction of a product with a twiddle factor in Montgomery form multiplies by the factor. */
  lemma {:induction false} TwiddleMul(zeta: int, z: int, y: int)
    requires Cong(zeta, z * R32, Q) && -Q < 2 * zeta < Q && -0x8000_0000 <= y < 0x8000_0000
    ensures -0x8000_0000 * Q < zeta * y < 0x8000_0000 * Q
    ensures -Q < MontReduce(zeta * y) < Q && Cong(MontReduce(zeta * y), z * y, Q)
  {
    hide Cong, MontReduce;
    ProductBound(zeta, y);
    MontReduceOk(zeta * y);
    var t := MontReduce(zeta * y);
    CongRefl(y, Q);
    CongMul(zeta, z * R32, y, y, Q);
    CongTrans(t * R32, zeta * y, z * R32 * y, Q);
    R32Power();
    assert z * R32 * y == z * y * R32;
    CancelPowTwoCong(t, z * y, 32, Q);
  }

  lemma {:induction false} ProductBound(zeta: int, y: int)
    requires -Q < 2 * zeta < Q && -0x8000_0000 <= y < 0x8000_0000
    ensures -0x8000_0000 * Q < zeta * y < 0x8000_0000 * Q
  {
    AbsBound(zeta, y, Q / 2, 0x8000_0000);
  }

  // ---------------------------------------------------------------------------
  // Forward
  // ---------------------------------------------------------------------------

  predicate Touched(p: int, start: nat, len: nat, j: nat) {
    start <= p < j || start + len <= p < j + len
  }

  /** The innermost loop of ntt: one block of butterflies. */
  method Butterflies(a: array<i32>, start: nat, len: nat, zeta: int, ghost z: int, ghost b: int)
    requires start + 2 * len <= a.Length && Cong(zeta, z * R32, Q) && -Q < 2 * zeta < Q
    requires 0 <= b <= 8 * Q && Bounded(a[..], start, start + 2 * len, b)
    modifies a
    ensures Scaled(a[..], FwdBlock(old(a[..]), start, len, z), 1)
    ensures Bounded(a[..], start, start + 2 * len, b + Q)
    ensures forall p :: 0 <= p < a.Length && !(start <= p < start + 2 * len) ==> a[p] == old(a[p])
  {
    hide Cong, MontReduce;
    ghost var s := a[..];
    var j := start;
    while j < start + len
      invariant start <= j <= start + len
      invariant forall p :: 0 <= p < a.Length && !Touched(p, start, len, j) ==> a[p] == s[p]
      invariant forall p :: 0 <= p < a.Length && Touched(p, start, len, j) ==>
        Cong(a[p], FwdAt(s, start, len, z, p), Q) && -b - Q <= a[p] <= b + Q
    {
      hide FwdAt;
      TwiddleMul(zeta, z, a[j + len]);
      var t := MontReduce(zeta * a[j + len]);
      Butterfly(s, start, len, z, j, t);
      a[j + len] := a[j] - t;
      a[j] := a[j] + t;
      j := j + 1;
    }
    hide FwdAt;
    Collected(s, start, len, z, a[..]);
  }

  lemma {:induction false} Butterfly(s: seq<int>, start: nat, len: nat, z: int, j: nat, t: int)
    requires start + 2 * len <= |s| && start <= j < start + len && Cong(t, z * s[j + len], Q)
    ensures Cong(s[j] + t, FwdAt(s, start, len, z, j), Q) && Cong(s[j] - t, FwdAt(s, start, len, z, j + len), Q)
  {
    hide Cong;
    CongRefl(s[j], Q);
    CongAdd(s[j], s[j], t, z * s[j + len], Q);
  }

  lemma {:induction false} Collected(s: seq<int>, start: nat, len: nat, z: int, r: seq<int>)
    requires start + 2 * len <= |s| == |r|
    requires forall p :: 0 <= p < |s| && !Touched(p, start, len, start + len) ==> r[p] == s[p]
    requires forall p :: 0 <= p < |s| && Touched(p, start, len, start + len) ==>
        Cong(r[p], FwdAt(s, start, len, z, p), Q)
    ensures Scaled(r, FwdBlock(s, start, len, z), 1)
  {
    hide Cong;
    forall p | 0 <= p < |s|
      ensures Cong(r[p], 1 * FwdBlock(s, start, len, z)[p], Q)
    {
      if !Touched(p, start, len, start + len) {
        CongRefl(s[p], Q);
      }
    }
  }

  ghost predicate ZetasOk(g: seq<int>) {
    |g| == N && forall k :: 1 <= k < N ==> ZetaOk(g[k], k)
  }

  lemma {:induction false} BoundedJoin(r: seq<int>, s: seq<int>, start: nat, e: nat, b: int, b': int)
    requires start <= e <= |s| == |r| && b <= b'
    requires Bounded(s, 0, start, b') && Bounded(s, start, |s|, b) && Bounded(r, start, e, b')
    requires forall p :: 0 <= p < |s| && !(start <= p < e) ==> r[p] == s[p]
    ensures Bounded(r, 0, e, b') && Bounded(r, e, |s|, b)
  {
  }

  /** What is left of a layer after one more block, up to congruence. */
  lemma {:induction false} FwdNext(s: seq<int>, r: seq<int>, len: nat, start: nat, k: nat, n: nat, target: seq<int>)
    requires n > 0 && start + 2 * len <= |s| && Scaled(r, FwdBlock(s, start, len, Z(k)), 1)
    requires Scaled(Fwd(s, len, start, k, n), target, 1)
    ensures Scaled(Fwd(r, len, start + 2 * len, k + 1, n - 1), target, 1)
  {
    hide Scaled, Z, FwdBlock;
    var b := FwdBlock(s, start, len, Z(k));
    FwdScaled(r, b, 1, len, start + 2 * len, k + 1, n - 1);
    ScaledTrans(Fwd(r, len, start + 2 * len, k + 1, n - 1), Fwd(b, len, start + 2 * len, k + 1, n - 1), target, 1, 1);
  }

  /** The loop over the blocks of one layer. */
  method ForwardLayer(a: array<i32>, g: array<i32>, len: nat, k0: nat, ghost l: nat, ghost b: int) returns (k: nat)
    requires a.Length == N && a != g && ZetasOk(g[..]) && l < 8 && len == Two(7 - l) && k0 + 1 == Two(l)
    requires 0 <= b <= 8 * Q && Bounded(a[..], 0, N, b)
    modifies a
    ensures k + 1 == 2 * Two(l) && Scaled(a[..], Layer(old(a[..]), l), 1) && Bounded(a[..], 0, N, b + Q)
  {
    hide Scaled, Bounded, Cong, Z, Fwd, FwdBlock, Two;
    ghost var target := Layer(a[..], l);
    ghost var n := Two(l);
    var start := 0;
    k := k0;
    LayerRoom(l);
    TwoBelow(l);
    ScaledSelf(target);
    BoundedNone(a[..], b + Q);
    while start < N
      invariant start <= N && start + n * (2 * len) == N && n >= 0 && k + n + 1 == 2 * Two(l) && k >= k0
      invariant Bounded(a[..], 0, start, b + Q) && Bounded(a[..], start, N, b)
      invariant Scaled(Fwd(a[..], len, start, k + 1, n), target, 1)
      decreases N - start
    {
      RoomLeft(n, len, start);
      ghost var s := a[..];
      k := k + 1;
      ZetaAt(g[..], k);
      BoundedPart(s, start, N, start, start + 2 * len, b);
      Butterflies(a, start, len, g[k], Z(k), b);
      FwdNext(s, a[..], len, start, k, n, target);
      BoundedJoin(a[..], s, start, start + 2 * len, b, b + Q);
      start, n := start + 2 * len, n - 1;
    }
    assert n == 0 by {
      RoomNone(n, len);
    }
    FwdNone(a[..], len, start, k + 1);
  }

  lemma {:induction false} BoundedNone(s: seq<int>, b: int)
    ensures Bounded(s, 0, 0, b)
  {
  }

  lemma {:induction false} BoundedPart(s: seq<int>, lo: nat, hi: nat, lo': nat, hi': nat, b: int)
    requires Bounded(s, lo, hi, b) && lo <= lo' && hi' <= hi
    ensures Bounded(s, lo', hi', b)
  {
  }

  lemma {:induction false} ZetaAt(g: seq<int>, k: nat)
    requires ZetasOk(g) && 1 <= k < N
    ensures Cong(g[k], Z(k) * R32, Q) && -Q < 2 * g[k] < Q
  {
    hide Cong, Z;
    assert ZetaOk(g[k], k);
  }

  lemma {:induction false} RoomLeft(n: int, len: nat, start: nat)
    requires start + n * (2 * len) == N && start < N && n >= 0
    ensures n > 0 && start + 2 * len <= N && (start + 2 * len) + (n - 1) * (2 * len) == N && len > 0
  {
    Room(n, len);
  }

  lemma {:induction false} RoomNone(n: int, len: nat)
    requires n * (2 * len) == 0 && len > 0 && n >= 0
    ensures n == 0
  {
  }

  lemma {:induction false} FwdNone(s: seq<int>, len: nat, start: nat, k: nat)
    ensures Fwd(s, len, start, k, 0) == s
  {
  }

  lemma {:induction false} TwoBelow(l: nat)
    requires l < 8
    ensures 2 * Two(l) <= N && Two(7 - l) > 0
  {
    LayerRoom(l);
    MulMono(1, Two(7 - l), Two(l));
  }

  /** ntt: eight layers, each growing the coefficients by less than q. */
  method Forward(a: array<i32>, g: array<i32>)
    requires a.Length == N && a != g && ZetasOk(g[..]) && Bounded(a[..], 0, N, Q)
    modifies a
    ensures Scaled(a[..], Transform(old(a[..]), 8), 1) && Bounded(a[..], 0, N, 9 * Q)
  {
    hide Scaled, Bounded, Cong, Layer;
    ghost var s := a[..];
    var len, k := 128, 0;
    ghost var l := 0;
    ScaledSelf(s);
    assert Two(7) == 128;
    hide Two;
    TwoStep(0);
    while len > 0
      invariant l <= 8 && k + 1 == Two(l) && len == (if l < 8 then Two(7 - l) else 0)
      invariant Scaled(a[..], Transform(s, l), 1) && Bounded(a[..], 0, N, (l + 1) * Q)
      decreases 8 - l
    {
      ghost var r := a[..];
      k := ForwardLayer(a, g, len, k, l, (l + 1) * Q);
      LayerScaled(r, Transform(s, l), 1, l);
      ScaledTrans(a[..], Layer(r, l), Layer(Transform(s, l), l), 1, 1);
      TwoStep(7 - l);
      TwoStep(l + 1);
      len, l := len / 2, l + 1;
    }
  }

  // ---------------------------------------------------------------------------
  // Inverse
  // ---------------------------------------------------------------------------

  /** The innermost loop of invntt_tomont; zeta is the negated twiddle factor. */
  method Unbutterflies(a: array<i32>, start: nat, len: nat, zeta: int, ghost z: int, ghost b: int)
    requires start + 2 * len <= a.Length && Cong(zeta, -z * R32, Q) && -Q < 2 * zeta < Q
    requires Q <= 2 * b < 0x8000_0000 && Bounded(a[..], start, start + 2 * len, b)
    modifies a
    ensures Scaled(a[..], InvBlock(old(a[..]), start, len, z), 1)
    ensures Bounded(a[..], start, start + 2 * len, 2 * b)
    ensures forall p :: 0 <= p < a.Length && !(start <= p < start + 2 * len) ==> a[p] == old(a[p])
  {
    hide Cong, MontReduce;
    ghost var s := a[..];
    var j := start;
    while j < start + len
      invariant start <= j <= start + len
      invariant forall p :: 0 <= p < a.Length && !Touched(p, start, len, j) ==> a[p] == s[p]
      invariant forall p :: 0 <= p < a.Length && Touched(p, start, len, j) ==>
        Cong(a[p], InvAt(s, start, len, z, p), Q) && -2 * b <= a[p] <= 2 * b
    {
      hide InvAt;
      var t := a[j];
      var d: i32 := t - a[j + len];
      a[j] := t + a[j + len];
      TwiddleMul(zeta, -z, d);
      Unbutterfly(s, start, len, z, j, MontReduce(zeta * d));
      a[j + len] := MontReduce(zeta * d);
      j := j + 1;
    }
    hide InvAt;
    CollectedInv(s, start, len, z, a[..]);
  }

  lemma {:induction false} Unbutterfly(s: seq<int>, start: nat, len: nat, z: int, j: nat, t: int)
    requires start + 2 * len <= |s| && start <= j < start + len && Cong(t, -z * (s[j] - s[j + len]), Q)
    ensures Cong(s[j] + s[j + len], InvAt(s, start, len, z, j), Q) && Cong(t, InvAt(s, start, len, z, j + len), Q)
  {
    hide Cong;
    CongRefl(s[j] + s[j + len], Q);
  }

  lemma {:induction false} CollectedInv(s: seq<int>, start: nat, len: nat, z: int, r: seq<int>)
    requires start + 2 * len <= |s| == |r|
    requires forall p :: 0 <= p < |s| && !Touched(p, start, len, start + len) ==> r[p] == s[p]
    requires forall p :: 0 <= p < |s| && Touched(p, start, len, start + len) ==>
        Cong(r[p], InvAt(s, start, len, z, p), Q)
    ensures Scaled(r, InvBlock(s, start, len, z), 1)
  {
    hide Cong;
    forall p | 0 <= p < |s|
      ensures Cong(r[p], 1 * InvBlock(s, start, len, z)[p], Q)
    {
      if !Touched(p, start, len, start + len) {
        CongRefl(s[p], Q);
      }
    }
  }

  lemma {:induction false} InvNext(s: seq<int>, r: seq<int>, len: nat, start: nat, k: int, n: nat, target: seq<int>)
    requires n > 0 && k >= 0 && start + 2 * len <= |s| && Scaled(r, InvBlock(s, start, len, Z(k)), 1)
    requires Scaled(Inv(s, len, start, k, n), target, 1)
    ensures Scaled(Inv(r, len, start + 2 * len, k - 1, n - 1), target, 1)
  {
    hide Scaled, Z, InvBlock;
    var b := InvBlock(s, start, len, Z(k));
    InvScaled(r, b, 1, len, start + 2 * len, k - 1, n - 1);
    ScaledTrans(Inv(r, len, start + 2 * len, k - 1, n - 1), Inv(b, len, start + 2 * len, k - 1, n - 1), target, 1, 1);
  }

  lemma {:induction false} NegatedZeta(g: int, k: nat)
    requires Cong(g, Z(k) * R32, Q)
    ensures Cong(-g, -Z(k) * R32, Q)
  {
    hide Cong, Z;
    CongRefl(-1, Q);
    CongMul(-1, -1, g, Z(k) * R32, Q);
    assert -1 * (Z(k) * R32) == -Z(k) * R32;
  }

  method InverseLayer(a: array<i32>, g: array<i32>, len: nat, k0: nat, ghost l: nat, ghost b: int) returns (k: nat)
    requires a.Length == N && a != g && ZetasOk(g[..]) && l < 8 && len == Two(7 - l) && k0 == 2 * Two(l)
    requires Q <= 2 * b < 0x8000_0000 && Bounded(a[..], 0, N, b)
    modifies a
    ensures k == Two(l) && Scaled(a[..], UnLayer(old(a[..]), l), 1) && Bounded(a[..], 0, N, 2 * b)
  {
    hide Scaled, Bounded, Cong, Z, Inv, InvBlock, Two;
    ghost var target := UnLayer(a[..], l);
    ghost var n := Two(l);
    var start := 0;
    k := k0;
    LayerRoom(l);
    TwoBelow(l);
    ScaledSelf(target);
    BoundedNone(a[..], 2 * b);
    while start < N
      invariant start <= N && start + n * (2 * len) == N && n >= 0 && k == Two(l) + n && k <= N
      invariant Bounded(a[..], 0, start, 2 * b) && Bounded(a[..], start, N, b)
      invariant Scaled(Inv(a[..], len, start, k - 1, n), target, 1)
      decreases N - start
    {
      RoomLeft(n, len, start);
      ghost var s := a[..];
      k := k - 1;
      ZetaAt(g[..], k);
      NegatedZeta(g[k], k);
      BoundedPart(s, start, N, start, start + 2 * len, b);
      Unbutterflies(a, start, len, -g[k], Z(k), b);
      InvNext(s, a[..], len, start, k, n, target);
      BoundedJoin(a[..], s, start, start + 2 * len, b, 2 * b);
      start, n := start + 2 * len, n - 1;
    }
    assert n == 0 by {
      RoomNone(n, len);
    }
    InvNone(a[..], len, start, k - 1);
  }

  lemma {:induction false} InvNone(s: seq<int>, len: nat, start: nat, k: int)
    ensures Inv(s, len, start, k, 0) == s
  {
  }

  const SMALL: int := 6283009

  lemma {:induction false} TwoBounds(j: nat)
    requires j <= 8
    ensures 1 <= Two(j) <= 256 && (j < 8 ==> Two(j) <= 128) && (j == 8 ==> Two(j) == 256)
  {
    assert Two(8) == 256 && Two(7) == 128 && Two(6) == 64 && Two(5) == 32 && Two(4) == 16;
    assert Two(3) == 8 && Two(2) == 4 && Two(1) == 2;
  }

  lemma {:induction false} UntransformStep(s: seq<int>, l: nat)
    requires 0 < l <= 8
    ensures Untransform(s, l) == Untransform(UnLayer(s, l - 1), l - 1) && Untransform(s, 0) == s
  {
    hide UnLayer;
  }

  /** 41978 is 2^24 in Montgomery form. */
  lemma {:induction false} FactorOk()
    ensures Cong(41978, 0x100_0000 * R32, Q)
  {
    CongFromQuotient(41978, 0x100_0000 * R32, -8598330374, Q);
  }

  /** The last loop of invntt_tomont. */
  method FinalScale(a: array<i32>)
    requires a.Length == N
    modifies a
    ensures Scaled(a[..], old(a[..]), 0x100_0000) && Bounded(a[..], 0, N, Q - 1)
  {
    hide Cong, MontReduce;
    ghost var s: seq<int> := a[..];
    FactorOk();
    for j := 0 to N
      invariant forall p :: j <= p < N ==> a[p] == s[p]
      invariant forall p :: 0 <= p < j ==> Cong(a[p], 0x100_0000 * s[p], Q) && -Q < a[p] < Q
    {
      var y: int := a[j];
      TwiddleMul(41978, 0x100_0000, y);
      a[j] := MontReduce(41978 * y);
    }
  }

  /** invntt_tomont: eight layers, each doubling the bound, and the final factor. */
  method Inverse(a: array<i32>, g: array<i32>)
    requires a.Length == N && a != g && ZetasOk(g[..]) && Bounded(a[..], 0, N, SMALL)
    modifies a
    ensures Scaled(a[..], Untransform(old(a[..]), 8), 0x100_0000) && Bounded(a[..], 0, N, Q - 1)
  {
    hide Scaled, Bounded, Cong, UnLayer, Untransform, Two;
    ghost var target := Untransform(a[..], 8);
    ghost var l := 8;
    var len, k := 1, N;
    ScaledSelf(target);
    TwoBounds(8);
    TwoStep(0);
    while len < N
      invariant 0 <= l <= 8 && k == Two(l) && len == Two(8 - l)
      invariant Scaled(Untransform(a[..], l), target, 1) && Bounded(a[..], 0, N, Two(8 - l) * SMALL)
      decreases l
    {
      TwoBounds(8 - l);
      TwoStep(l);
      TwoStep(9 - l);
      ghost var r, b := a[..], Two(8 - l) * SMALL;
      k := InverseLayer(a, g, len, k, l - 1, b);
      UntransformScaled(a[..], UnLayer(r, l - 1), 1, l - 1);
      UntransformStep(r, l);
      ScaledTrans(Untransform(a[..], l - 1), Untransform(r, l), target, 1, 1);
      len, l := len * 2, l - 1;
    }
    assert l == 0 by {
      TwoBounds(8 - l);
    }
    ghost var u := a[..];
    UntransformStep(u, 1);
    FinalScale(a);
    ScaledTrans(a[..], u, target, 0x100_0000, 1);
  }

  /** poly_reduce. */
  method ReduceAll(a: array<i32>)
    requires a.Length == N && Bounded(a[..], 0, N, 10 * Q)
    modifies a
    ensures Scaled(a[..], old(a[..]), 1) && Bounded(a[..], 0, N, SMALL)
  {
    hide Cong, Reduce32;
    ghost var s := a[..];
    for j := 0 to N
      invariant forall p :: j <= p < N ==> a[p] == s[p]
      invariant forall p :: 0 <= p < j ==> Cong(a[p], 1 * s[p], Q) && -SMALL <= a[p] <= SMALL
    {
      assert a[j] == s[j];
      Reduce32Ok(a[j]);
      a[j] := Reduce32(a[j]);
    }
  }

  /** poly_caddq: from between -q and q to between 0 and q. */
  method CaddqAll(a: array<i32>)
    requires a.Length == N && Bounded(a[..], 0, N, Q - 1)
    modifies a
    ensures Scaled(a[..], old(a[..]), 1) && forall p :: 0 <= p < N ==> 0 <= a[p] < Q
  {
    hide Cong;
    ghost var s := a[..];
    for j := 0 to N
      invariant forall p :: j <= p < N ==> a[p] == s[p]
      invariant forall p :: 0 <= p < j ==> Cong(a[p], 1 * s[p], Q) && 0 <= a[p] < Q
    {
      assert a[j] == s[j];
      CongRefl(a[j], Q);
      CongFromQuotient(a[j] + Q, a[j], 1, Q);
      a[j] := Caddq(a[j]);
    }
  }

  /** Transforming forth and back multiplies by 2^32, whatever the coefficients between -q and q. */
  method ThereAndBack(a: array<i32>, g: array<i32>)
    requires a.Length == N && a != g && ZetasOk(g[..]) && Bounded(a[..], 0, N, Q)
    modifies a
    ensures Scaled(a[..], old(a[..]), R32)
  {
    hide Scaled, Bounded, Transform, Untransform;
    ghost var s := a[..];
    Forward(a, g);
    ghost var t := a[..];
    BoundedMore(t, N, 9 * Q, 10 * Q);
    ReduceAll(a);
    ghost var r := a[..];
    Inverse(a, g);
    var c := 0x100_0000;
    ScaledTrans(r, t, Transform(s, 8), 1, 1);
    UntransformScaled(r, Transform(s, 8), 1, 8);
    RoundTrip(s, 8);
    TwoBounds(8);
    ScaledTrans(Untransform(r, 8), Untransform(Transform(s, 8), 8), s, 1, 256);
    ScaledTrans(a[..], Untransform(r, 8), s, c, 256);
  }

  lemma {:induction false} BoundedMore(s: seq<int>, n: nat, b: int, b': int)
    requires Bounded(s, 0, n, b) && b <= b'
    ensures Bounded(s, 0, n, b')
  {
  }

  // ---------------------------------------------------------------------------
  // The computation of w
  // ---------------------------------------------------------------------------

  lemma {:induction false} MontProduct(x: int, y: int)
    requires -9 * Q <= x <= 9 * Q && -9 * Q <= y <= 9 * Q
    ensures -0x8000_0000 * Q < x * y < 0x8000_0000 * Q
    ensures -Q < MontReduce(x * y) < Q && Cong(MontReduce(x * y) * R32, x * y, Q)
  {
    hide MontReduce, Cong;
    AbsBound(x, y, 9 * Q, 9 * Q);
    MontReduceOk(x * y);
  }

  lemma {:induction false} AbsBound(x: int, y: int, m: int, n: int)
    requires -m <= x <= m && -n <= y <= n
    ensures -(m * n) <= x * y <= m * n
  {
    NonNeg(m - x, n + y);
    NonNeg(m + x, n - y);
    NonNeg(m - x, n - y);
    NonNeg(m + x, n + y);
    assert (m - x) * (n + y) + (m + x) * (n - y) == 2 * (m * n) - 2 * (x * y);
    assert (m - x) * (n - y) + (m + x) * (n + y) == 2 * (m * n) + 2 * (x * y);
  }

  lemma {:induction false} NonNeg(x: int, y: int)
    requires x >= 0 && y >= 0
    ensures x * y >= 0
  {
  }

  /** The inner product at coefficient p of the first n polynomials of a row. */
  function Dot(row: seq<seq<int>>, z: seq<seq<int>>, p: nat, n: nat): int
    requires n <= |row| && n <= |z| && forall j :: 0 <= j < n ==> p < |row[j]| && p < |z[j]|
  {
    if n == 0 then 0 else Dot(row, z, p, n - 1) + row[n - 1][p] * z[n - 1][p]
  }

  ghost predicate Poly(s: seq<int>, b: int) {
    |s| == N && Bounded(s, 0, N, b)
  }

  ghost predicate Polys(s: seq<seq<int>>, b: int) {
    forall j :: 0 <= j < |s| ==> Poly(s[j], b)
  }

  /** poly_pointwise_acc: products divided by 2^32, stored or added. */
  method Pointwise(w: array<i32>, a: seq<int>, b: seq<int>, acc: bool, ghost n: nat, ghost old0: seq<int>)
    requires w.Length == N && Poly(a, 9 * Q) && Poly(b, 9 * Q) && n <= 7 && w[..] == old0
    requires acc ==> Bounded(old0, 0, N, n * Q)
    modifies w
    ensures Bounded(w[..], 0, N, (n + 1) * Q)
    ensures forall p :: 0 <= p < N ==> Cong((w[p] - (if acc then old0[p] else 0)) * R32, a[p] * b[p], Q)
  {
    hide MontReduce, Cong;
    for i := 0 to N
      invariant forall p :: i <= p < N ==> w[p] == old0[p]
      invariant forall p :: 0 <= p < i ==> -(n + 1) * Q <= w[p] <= (n + 1) * Q
      invariant forall p :: 0 <= p < i ==> Cong((w[p] - (if acc then old0[p] else 0)) * R32, a[p] * b[p], Q)
    {
      MontProduct(a[i], b[i]);
      var v := MontReduce(a[i] * b[i]);
      assert w[i] == old0[i];
      w[i] := if acc then w[i] + v else v;
    }
  }

  lemma {:induction false} DotStep(row: seq<seq<int>>, z: seq<seq<int>>, p: nat, n: nat, w: int, w': int)
    requires n < |row| && n < |z| && forall j :: 0 <= j <= n ==> p < |row[j]| && p < |z[j]|
    requires Cong(w * R32, Dot(row, z, p, n), Q) && Cong((w' - w) * R32, row[n][p] * z[n][p], Q)
    ensures Cong(w' * R32, Dot(row, z, p, n + 1), Q)
  {
    hide Cong;
    CongAdd(w * R32, Dot(row, z, p, n), (w' - w) * R32, row[n][p] * z[n][p], Q);
    assert w * R32 + (w' - w) * R32 == w' * R32;
  }

  /** One row of A times NTT(z), for up to seven polynomials. */
  method RowTimes(row: seq<seq<int>>, z: seq<seq<int>>) returns (w: array<i32>)
    requires 0 < |row| == |z| <= 7 && Polys(row, 9 * Q) && Polys(z, 9 * Q)
    ensures fresh(w) && w.Length == N && Bounded(w[..], 0, N, 7 * Q)
    ensures forall p :: 0 <= p < N ==> Cong(w[p] * R32, Dot(row, z, p, |row|), Q)
  {
    hide Cong;
    w := new i32[N](i => 0);
    CongRefl(0, Q);
    for j := 0 to |row|
      invariant Bounded(w[..], 0, N, j * Q) && (j == 0 ==> forall p :: 0 <= p < N ==> w[p] == 0)
      invariant forall p :: 0 <= p < N ==> Cong(w[p] * R32, Dot(row, z, p, j), Q)
    {
      hide Dot, Bounded;
      ghost var v: seq<int> := w[..];
      Pointwise(w, row[j], z[j], j != 0, j, v);
      forall p | 0 <= p < N
        ensures Cong(w[p] * R32, Dot(row, z, p, j + 1), Q)
      {
        DotStep(row, z, p, j, v[p], w[p]);
      }
    }
    BoundedMore(w[..], N, |row| * Q, 7 * Q);
  }

  method Transformed(s: seq<int>, g: array<i32>) returns (r: seq<int>)
    requires ZetasOk(g[..]) && Poly(s, Q)
    ensures Poly(r, 9 * Q) && Scaled(r, Transform(s, 8), 1)
  {
    hide Scaled, Transform;
    var a := new i32[N](i requires 0 <= i < |s| => s[i]);
    assert a[..] == s;
    Forward(a, g);
    r := a[..];
  }

  /** poly_shiftl: t1 * 2^13, which is still below q. */
  function Shifted(t1: seq<int>): (r: seq<int>)
    ensures |r| == |t1| && forall p :: 0 <= p < |r| ==> r[p] == t1[p] * 0x2000
  {
    seq(|t1|, p requires 0 <= p < |t1| => t1[p] * 0x2000)
  }

  lemma {:induction false} ShiftedPoly(t1: seq<int>)
    requires |t1| == N && forall p :: 0 <= p < N ==> 0 <= t1[p] < 1024
    ensures Poly(Shifted(t1), Q)
  {
  }

  /** poly_sub. */
  method Subtract(w: array<i32>, t: array<i32>)
    requires w.Length == t.Length == N && w != t && Bounded(w[..], 0, N, 7 * Q) && Bounded(t[..], 0, N, Q)
    modifies w
    ensures Bounded(w[..], 0, N, 8 * Q) && forall p :: 0 <= p < N ==> w[p] == old(w[p]) - t[p]
  {
    ghost var s := w[..];
    for i := 0 to N
      invariant forall p :: i <= p < N ==> w[p] == s[p]
      invariant forall p :: 0 <= p < i ==> w[p] == s[p] - t[p]
    {
      assert w[i] == s[i];
      w[i] := w[i] - t[i];
    }
  }

  lemma {:induction false} DiffTimes(w: int, t: int, x: int, y: int)
    requires Cong(w * R32, x, Q) && Cong((t - 0) * R32, y, Q)
    ensures Cong((w - t) * R32, x - y, Q)
  {
    hide Cong;
    CongAdd(w * R32, x, t * R32, y, Q);
    assert w * R32 - t * R32 == (w - t) * R32;
  }

  /** The inverse transform gives the polynomial whose transform, times 2^32, went in. */
  lemma {:induction false} InverseMeans(r: seq<int>, v: seq<int>)
    requires |v| == N && Scaled(r, Untransform(v, 8), 0x100_0000)
    ensures Scaled(Transform(r, 8), v, R32)
  {
    hide Scaled, Transform, Untransform;
    TransformScaled(r, Untransform(v, 8), 0x100_0000, 8);
    RoundTripBack(v, 8);
    TwoBounds(8);
    ScaledTrans(Transform(r, 8), Transform(Untransform(v, 8), 8), v, 0x100_0000, 256);
  }

  /** What row i of w is, in the transform domain: A z - c t1 2^13. */
  ghost predicate RowIs(w: seq<int>, row: seq<seq<int>>, z: seq<seq<int>>, c: seq<int>, t: seq<int>)
    requires |row| == |z| && Polys(row, 9 * Q) && Polys(z, 9 * Q) && Poly(c, 9 * Q) && Poly(t, 9 * Q) && |w| == N
  {
    forall p :: 0 <= p < N ==> Cong(Transform(w, 8)[p], Dot(row, z, p, |row|) - c[p] * t[p], Q)
  }

  lemma {:induction false} RowDone(w: seq<int>, v: seq<int>, row: seq<seq<int>>, z: seq<seq<int>>, c: seq<int>,
                                   t: seq<int>)
    requires |row| == |z| && Polys(row, 9 * Q) && Polys(z, 9 * Q) && Poly(c, 9 * Q) && Poly(t, 9 * Q) && |w| == N == |v|
    requires Scaled(Transform(w, 8), v, R32)
    requires forall p :: 0 <= p < N ==> Cong(v[p] * R32, Dot(row, z, p, |row|) - c[p] * t[p], Q)
    ensures RowIs(w, row, z, c, t)
  {
    hide Cong, Transform, Dot;
    forall p | 0 <= p < N
      ensures Cong(Transform(w, 8)[p], Dot(row, z, p, |row|) - c[p] * t[p], Q)
    {
      assert R32 * v[p] == v[p] * R32;
      CongTrans(Transform(w, 8)[p], v[p] * R32, Dot(row, z, p, |row|) - c[p] * t[p], Q);
    }
  }

  /** One row of w: every intermediate coefficient fits its word, and the result is between 0 and q. */
  method ComputeRow(row: seq<seq<int>>, z: seq<seq<int>>, c: seq<int>, t1: seq<int>, g: array<i32>)
    returns (w: seq<int>, t: seq<int>)
    requires ZetasOk(g[..]) && 0 < |row| == |z| <= 7 && Polys(row, 9 * Q) && Polys(z, 9 * Q) && Poly(c, 9 * Q)
    requires |t1| == N && forall p :: 0 <= p < N ==> 0 <= t1[p] < 1024
    ensures |w| == N && (forall p :: 0 <= p < N ==> 0 <= w[p] < Q)
    ensures Poly(t, 9 * Q) && Scaled(t, Transform(Shifted(t1), 8), 1) && RowIs(w, row, z, c, t)
  {
    hide Scaled, Bounded, Cong, Transform, Untransform, Dot, RowIs;
    var a := RowTimes(row, z);
    ShiftedPoly(t1);
    t := Transformed(Shifted(t1), g);
    var u := new i32[N](i => 0);
    Pointwise(u, c, t, false, 0, u[..]);
    ghost var x: seq<int> := a[..];
    Subtract(a, u);
    ghost var v: seq<int> := a[..];
    forall p | 0 <= p < N
      ensures Cong(v[p] * R32, Dot(row, z, p, |row|) - c[p] * t[p], Q)
    {
      DiffTimes(x[p], u[p], Dot(row, z, p, |row|), c[p] * t[p]);
    }
    BoundedMore(v, N, 8 * Q, 10 * Q);
    ReduceAll(a);
    ghost var r := a[..];
    Inverse(a, g);
    ghost var y := a[..];
    CaddqAll(a);
    w := a[..];
    UntransformScaled(r, v, 1, 8);
    ScaledTrans(y, Untransform(r, 8), Untransform(v, 8), 0x100_0000, 1);
    ScaledTrans(w, y, Untransform(v, 8), 1, 0x100_0000);
    InverseMeans(w, v);
    RowDone(w, v, row, z, c, t);
  }

  /** The parameters that matter here, for the three parameter sets of FIPS 204. */
  datatype Param = Param(k: nat, l: nat, gamma1: int, beta: int)

  const PARAMS: seq<Param> := [Param(4, 4, 0x2_0000, 78), Param(6, 5, 0x8_0000, 196), Param(8, 7, 0x8_0000, 120)]

  /** A decoded signature and key: z within the norm that was checked, c of -1, 0 and 1, t1 of ten bits, A below q. */
  ghost predicate Decoded(p: Param, m: seq<seq<seq<int>>>, z: seq<seq<int>>, c: seq<int>, t1: seq<seq<int>>) {
    && p in PARAMS && |m| == |t1| == p.k && |z| == p.l
    && (forall i :: 0 <= i < p.k ==> |m[i]| == p.l && Polys(m[i], Q - 1))
    && Polys(z, p.gamma1 - p.beta - 1) && Poly(c, 1)
    && (forall i :: 0 <= i < p.k ==> TenBits(t1[i]))
  }

  predicate TenBits(t: seq<int>) {
    |t| == N && forall p :: 0 <= p < N ==> 0 <= t[p] < 1024
  }

  /** Coefficient by coefficient the transform of a polynomial, itself below nine q. */
  ghost predicate HatOf(h: seq<int>, s: seq<int>) {
    Poly(h, 9 * Q) && Scaled(h, Transform(s, 8), 1)
  }

  lemma {:induction false} PolyMore(s: seq<int>, b: int, b': int)
    requires Poly(s, b) && b <= b'
    ensures Poly(s, b')
  {
  }

  ghost predicate HatsOf(h: seq<seq<int>>, s: seq<seq<int>>) {
    |h| == |s| && forall j :: 0 <= j < |s| ==> HatOf(h[j], s[j])
  }

  /** A row of w: between 0 and q, and in the transform domain what verification asks for. */
  ghost predicate RowOk(w: seq<int>, row: seq<seq<int>>, zh: seq<seq<int>>, ch: seq<int>, th: seq<int>) {
    && |w| == N && (forall q :: 0 <= q < N ==> 0 <= w[q] < Q)
    && |row| == |zh| && Polys(row, 9 * Q) && Polys(zh, 9 * Q) && Poly(ch, 9 * Q) && Poly(th, 9 * Q)
    && RowIs(w, row, zh, ch, th)
  }

  method TransformAll(z: seq<seq<int>>, g: array<i32>) returns (h: seq<seq<int>>)
    requires ZetasOk(g[..]) && Polys(z, Q)
    ensures HatsOf(h, z)
  {
    hide Poly, Scaled, Transform;
    h := [];
    for j := 0 to |z|
      invariant |h| == j && forall i :: 0 <= i < j ==> HatOf(h[i], z[i])
    {
      var x := Transformed(z[j], g);
      h := h + [x];
    }
  }

  lemma {:induction false} PolysMore(s: seq<seq<int>>, b: int, b': int)
    requires Polys(s, b) && b <= b'
    ensures Polys(s, b')
  {
    hide Poly;
    forall j | 0 <= j < |s|
      ensures Poly(s[j], b')
    {
      PolyMore(s[j], b, b');
    }
  }

  lemma {:induction false} HatsArePolys(h: seq<seq<int>>, s: seq<seq<int>>)
    requires HatsOf(h, s)
    ensures |h| == |s| && Polys(h, 9 * Q)
  {
    hide Poly, Scaled, Transform;
  }

  lemma {:induction false} ParamFacts(p: Param)
    requires p in PARAMS
    ensures 0 < p.l <= 7 && 0 < p.gamma1 - p.beta <= Q
  {
  }

  method RowFor(row: seq<seq<int>>, z: seq<seq<int>>, c: seq<int>, t1: seq<int>, g: array<i32>)
    returns (w: seq<int>, th: seq<int>)
    requires ZetasOk(g[..]) && 0 < |row| == |z| <= 7 && Polys(row, 9 * Q) && Polys(z, 9 * Q) && Poly(c, 9 * Q)
    requires TenBits(t1)
    ensures RowOk(w, row, z, c, th) && HatOf(th, Shifted(t1))
  {
    hide Poly, Scaled, Transform, RowIs;
    w, th := ComputeRow(row, z, c, t1, g);
  }

  /** The whole of w = A NTT(z) - NTT(c) NTT(t1 2^13), for every parameter set. */
  method ComputeW(p: Param, m: seq<seq<seq<int>>>, z: seq<seq<int>>, c: seq<int>, t1: seq<seq<int>>)
    returns (w: seq<seq<int>>, zh: seq<seq<int>>, ch: seq<int>, th: seq<seq<int>>)
    requires Decoded(p, m, z, c, t1)
    ensures HatsOf(zh, z) && HatOf(ch, c) && |th| == |w| == |m| == |t1| == p.k
    ensures forall i :: 0 <= i < p.k ==> HatOf(th[i], Shifted(t1[i])) && RowOk(w[i], m[i], zh, ch, th[i])
  {
    hide Poly, Scaled, Transform, RowOk, TenBits, HatOf, HatsOf, Polys, ZetasOk, ZetaOk;
    ParamFacts(p);
    var g := ZetasInit();
    assert ZetasOk(g[..]) by {
      ZetasAre(g[..]);
    }
    PolysMore(z, p.gamma1 - p.beta - 1, Q);
    var zs := TransformAll(z, g);
    HatsArePolys(zs, z);
    PolyMore(c, 1, Q);
    var cs := Transformed(c, g);
    HatIs(cs, c);
    zh, ch, th := zs, cs, [];
    w := [];
    ghost var gs := g[..];
    for i := 0 to p.k
      invariant |w| == |th| == i && g[..] == gs
      invariant forall n :: 0 <= n < i ==> HatOf(th[n], Shifted(t1[n])) && RowOk(w[n], m[n], zs, cs, th[n])
    {
      PolysMore(m[i], Q - 1, 9 * Q);
      var row, t := RowFor(m[i], zs, cs, t1[i], g);
      w, th := w + [row], th + [t];
    }
  }

  lemma {:induction false} HatIs(h: seq<int>, s: seq<int>)
    requires Poly(h, 9 * Q) && Scaled(h, Transform(s, 8), 1)
    ensures HatOf(h, s)
  {
  }

  lemma {:induction false} ZetasAre(g: seq<int>)
    requires |g| == N && forall k :: 1 <= k < N ==> ZetaOk(g[k], k)
    ensures ZetasOk(g)
  {
  }
}
