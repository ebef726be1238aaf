/**
 What the verifier of ML-DSA computes as w (src/crypto/mldsa.c): A z - c t1 2^13 in the ring of
 polynomials modulo X^256 + 1 and q, where A is given by its transform.
 */
module MldsaW {
  import opened Words
  import opened ModArith
  import opened Mldsa
  import opened Ntt
  import opened NttRing
  import opened NttLoops

  function Times(s: seq<int>, c: int): (r: seq<int>)
    ensures |r| == |s| && forall p :: 0 <= p < |s| ==> r[p] == c * s[p]
  {
    seq(|s|, p requires 0 <= p < |s| => c * s[p])
  }

  /** The polynomial with transform h. */
  function Unhat(h: seq<int>): (r: seq<int>)
    ensures |r| == |h|
  {
    Times(Untransform(h, 8), INV256)
  }

  lemma {:induction false} UnhatIs(h: seq<int>)
    requires |h| == N
    ensures Scaled(Transform(Unhat(h), 8), h, 1)
  {
    hide Cong, Transform, Untransform;
    var u := Untransform(h, 8);
    assert Scaled(Unhat(h), u, INV256) by {
      forall p | 0 <= p < N
        ensures Cong(Unhat(h)[p], INV256 * u[p], Q)
      {
        CongRefl(INV256 * u[p], Q);
      }
    }
    TransformScaled(Unhat(h), u, INV256, 8);
    RoundTripBack(h, 8);
    assert Two(8) == 256;
    ScaledTrans(Transform(Unhat(h), 8), Transform(u, 8), h, INV256, 256);
    forall p | 0 <= p < N
      ensures Cong(Transform(Unhat(h), 8)[p], 1 * h[p], Q)
    {
      Inverse256(h[p]);
      assert INV256 * 256 * h[p] == 256 * h[p] * INV256;
      CongTrans(Transform(Unhat(h), 8)[p], INV256 * 256 * h[p], h[p], Q);
    }
  }

  /** A row of A times z, n terms of it, in the ring. */
  function RowTimesZ(row: seq<seq<int>>, z: seq<seq<int>>, n: nat): (r: seq<int>)
    requires n <= |row| && n <= |z| && forall j :: 0 <= j < n ==> |row[j]| == N && |z[j]| == N
    ensures |r| == N
  {
    if n == 0 then seq(N, _ => 0)
    else Comb(RowTimesZ(row, z, n - 1), RingMul(Unhat(row[n - 1]), z[n - 1]), 1)
  }

  lemma {:induction false} ZeroTransform(p: nat)
    requires p < N
    ensures Cong(Transform(seq(N, _ => 0), 8)[p], 0, Q)
  {
    hide Cong, Transform, Root, Eval, Pow;
    TransformEvaluates(seq(N, _ => 0), p);
    EvalZeros(N, Root(p));
  }

  // One product of the row, in the transform domain.
  lemma {:induction false} TermIs(h: seq<int>, zh: seq<int>, z: seq<int>, p: nat)
    requires |h| == |z| == N && Scaled(zh, Transform(z, 8), 1) && p < N
    ensures |zh| == N && Cong(Transform(RingMul(Unhat(h), z), 8)[p], h[p] * zh[p], Q)
  {
    hide Cong, Transform, RingMul, Unhat;
    var a := Unhat(h);
    UnhatIs(h);
    ProductPointwise(a, z, p);
    var u, v := Transform(a, 8)[p], Transform(z, 8)[p];
    assert Cong(u, 1 * h[p], Q) && Cong(zh[p], 1 * v, Q);
    CongSym(zh[p], v, Q);
    CongMul(u, h[p], v, zh[p], Q);
    CongTrans(Transform(RingMul(a, z), 8)[p], u * v, h[p] * zh[p], Q);
  }

  lemma {:induction false} RowTransforms(row: seq<seq<int>>, zh: seq<seq<int>>, z: seq<seq<int>>, n: nat, p: nat)
    requires n <= |row| && n <= |z| && n <= |zh| && p < N
    requires forall j :: 0 <= j < n ==> |row[j]| == |z[j]| == |zh[j]| == N && Scaled(zh[j], Transform(z[j], 8), 1)
    ensures Cong(Transform(RowTimesZ(row, z, n), 8)[p], Dot(row, zh, p, n), Q)
    decreases n
  {
    hide Cong, Transform, RingMul, Unhat, Scaled, Comb;
    if n == 0 {
      ZeroTransform(p);
    } else {
      RowTransforms(row, zh, z, n - 1, p);
      var a, b := RowTimesZ(row, z, n - 1), RingMul(Unhat(row[n - 1]), z[n - 1]);
      TransformLinear(a, b, 1, p);
      TermIs(row[n - 1], zh[n - 1], z[n - 1], p);
      var u, v := Transform(a, 8)[p], Transform(b, 8)[p];
      CongAdd(u, Dot(row, zh, p, n - 1), v, row[n - 1][p] * zh[n - 1][p], Q);
      CongTrans(Transform(Comb(a, b, 1), 8)[p], u + v, Dot(row, zh, p, n), Q);
    }
  }

  /** The row of w that verification is about. */
  function RowOfW(row: seq<seq<int>>, z: seq<seq<int>>, c: seq<int>, t: seq<int>): seq<int>
    requires |row| == |z| && |c| == |t| == N && forall j :: 0 <= j < |row| ==> |row[j]| == N && |z[j]| == N
  {
    Comb(RowTimesZ(row, z, |row|), RingMul(c, t), -1)
  }

  // A row that is right in the transform domain is right in the ring.
  lemma {:induction false} RowMeans(w: seq<int>, row: seq<seq<int>>, zh: seq<seq<int>>, z: seq<seq<int>>,
                                    ch: seq<int>, c: seq<int>, th: seq<int>, t: seq<int>)
    requires |w| == N && |row| == |z| == |zh| && |c| == |t| == |ch| == |th| == N
    requires forall j :: 0 <= j < |row| ==> |row[j]| == |z[j]| == |zh[j]| == N && Scaled(zh[j], Transform(z[j], 8), 1)
    requires Scaled(ch, Transform(c, 8), 1) && Scaled(th, Transform(t, 8), 1)
    requires forall p :: 0 <= p < N ==> Cong(Transform(w, 8)[p], Dot(row, zh, p, |row|) - ch[p] * th[p], Q)
    ensures Scaled(w, RowOfW(row, z, c, t), 1)
  {
    hide Cong, Transform, RingMul, Unhat, Comb, RowTimesZ, Dot;
    var a, b, e := RowTimesZ(row, z, |row|), RingMul(c, t), RowOfW(row, z, c, t);
    forall p | 0 <= p < N
      ensures Cong(Transform(w, 8)[p], 1 * Transform(e, 8)[p], Q)
    {
      RowTransforms(row, zh, z, |row|, p);
      ProductPointwise(c, t, p);
      TransformLinear(a, b, -1, p);
      assert Cong(ch[p], 1 * Transform(c, 8)[p], Q) && Cong(th[p], 1 * Transform(t, 8)[p], Q);
      EntryMeans(Transform(w, 8)[p], Transform(e, 8)[p], Transform(a, 8)[p], Transform(b, 8)[p], Dot(row, zh, p, |row|),
                 ch[p], th[p], Transform(c, 8)[p], Transform(t, 8)[p]);
    }
    TransformInjective(w, e);
  }

  lemma {:induction false} EntryMeans(w: int, e: int, a: int, b: int, d: int, ch: int, th: int, c: int, t: int)
    requires Cong(w, d - ch * th, Q) && Cong(e, a + -1 * b, Q) && Cong(a, d, Q) && Cong(b, c * t, Q)
    requires Cong(ch, c, Q) && Cong(th, t, Q)
    ensures Cong(w, e, Q)
  {
    hide Cong;
    CongMul(ch, c, th, t, Q);
    CongSym(ch * th, c * t, Q);
    CongTrans(b, c * t, ch * th, Q);
    CongAdd(a, d, b, ch * th, Q);
    CongTrans(e, a - b, d - ch * th, Q);
    CongSym(e, d - ch * th, Q);
    CongTrans(w, d - ch * th, e, Q);
  }

  /** Everything between unpacking and hints: w = A z - c t1 2^13 in the ring, each coefficient the least residue. */
  method VerifierW(p: Param, m: seq<seq<seq<int>>>, z: seq<seq<int>>, c: seq<int>, t1: seq<seq<int>>)
    returns (w: seq<seq<int>>)
    requires Decoded(p, m, z, c, t1)
    ensures |w| == |m| == |t1| == p.k && |z| == p.l && |c| == N && forall j :: 0 <= j < |z| ==> |z[j]| == N
    ensures forall i :: 0 <= i < p.k ==> |w[i]| == |t1[i]| == N && |m[i]| == |z|
    ensures forall i, j :: 0 <= i < p.k && 0 <= j < |z| ==> |m[i][j]| == N
    ensures forall i :: 0 <= i < p.k ==> LeastResidues(w[i], RowOfW(m[i], z, c, Shifted(t1[i])))
  {
    hide Transform, RowOfW, Cong, Bounded;
    var zh, ch, th;
    w, zh, ch, th := ComputeW(p, m, z, c, t1);
    forall i | 0 <= i < p.k
      ensures LeastResidues(w[i], RowOfW(m[i], z, c, Shifted(t1[i])))
    {
      RowMeans(w[i], m[i], zh, z, ch, c, th[i], Shifted(t1[i]));
    }
  }

  /** Coefficient by coefficient the residue modulo q between 0 and q. */
  ghost predicate LeastResidues(w: seq<int>, v: seq<int>) {
    Scaled(w, v, 1) && forall p :: 0 <= p < |w| ==> 0 <= w[p] < Q
  }

  /** There is only one such w. */
  lemma {:induction false} LeastUnique(w: seq<int>, u: seq<int>, v: seq<int>)
    requires LeastResidues(w, v) && LeastResidues(u, v)
    ensures w == u
  {
    hide Cong;
    forall p | 0 <= p < |w|
      ensures w[p] == u[p]
    {
      CongSym(u[p], 1 * v[p], Q);
      CongTrans(w[p], 1 * v[p], u[p], Q);
      CongUnique(w[p], u[p], Q);
    }
  }
}
