/**
 The number that a little-endian sequence of limbs stands for.
 */
module Limbs {
  import opened Words
  import opened ModArith

  /** The number whose base-w digits are s, least significant first. */
  function Val(s: seq<int>, w: int): int
  {
    if |s| == 0 then 0 else Val(s[..|s| - 1], w) + s[|s| - 1] * Pow(w, |s| - 1)
  }

  ghost predicate Digits(s: seq<int>, w: int) {
    forall i :: 0 <= i < |s| ==> 0 <= s[i] < w
  }

  lemma {:induction false} ValEmpty(s: seq<int>, w: int)
    requires |s| == 0
    ensures Val(s, w) == 0
  {
  }

  lemma {:induction false} ValSnoc(s: seq<int>, x: int, w: int)
    ensures Val(s + [x], w) == Val(s, w) + x * Pow(w, |s|)
  {
    assert (s + [x])[..|s|] == s;
  }

  lemma {:induction false} ValPrefix(s: seq<int>, j: nat, w: int)
    requires j < |s|
    ensures Val(s[..j + 1], w) == Val(s[..j], w) + s[j] * Pow(w, j)
  {
    assert s[..j + 1] == s[..j] + [s[j]];
    ValSnoc(s[..j], s[j], w);
  }

  lemma {:induction false} ValBound(s: seq<int>, w: int)
    requires w > 0 && Digits(s, w)
    ensures 0 <= Val(s, w) < Pow(w, |s|)
  {
    if |s| > 0 {
      var n := |s| - 1;
      var t, p := s[..n], Pow(w, n);
      ValBound(t, w);
      PowPos(w, n);
      MulMono(0, s[n], p);
      MulMono(s[n], w - 1, p);
      assert (w - 1) * p + p == w * p;
    }
  }

  /** Cutting a number into a low and a high part. */
  lemma {:induction false} ValSplit(s: seq<int>, k: nat, w: int)
    requires k <= |s|
    ensures Val(s, w) == Val(s[..k], w) + Pow(w, k) * Val(s[k..], w)
  {
    if k == |s| {
      assert s[..k] == s;
    } else {
      var n := |s| - 1;
      var t := s[..n];
      ValSplit(t, k, w);
      assert t[..k] == s[..k];
      assert s[k..] == t[k..] + [s[n]];
      ValSnoc(t[k..], s[n], w);
      PowAdd(w, k, n - k);
      calc {
        Val(s, w);
        Val(t, w) + s[n] * Pow(w, n);
        Val(s[..k], w) + Pow(w, k) * Val(t[k..], w) + s[n] * (Pow(w, k) * Pow(w, n - k));
        { MulMiddle(s[n], Pow(w, k), Pow(w, n - k)); }
        Val(s[..k], w) + Pow(w, k) * Val(t[k..], w) + Pow(w, k) * (s[n] * Pow(w, n - k));
        Val(s[..k], w) + Pow(w, k) * (Val(t[k..], w) + s[n] * Pow(w, n - k));
      }
    }
  }

  lemma {:induction false} MulMiddle(x: int, y: int, z: int)
    ensures x * (y * z) == y * (x * z)
  {
  }

  lemma {:induction false} ValZeros(s: seq<int>, w: int)
    requires forall i :: 0 <= i < |s| ==> s[i] == 0
    ensures Val(s, w) == 0
  {
    if |s| > 0 {
      ValZeros(s[..|s| - 1], w);
    }
  }

  /** The first n limbs of s, padded with zeros when there are fewer. */
  function Fit(s: seq<int>, n: nat): (r: seq<int>)
    ensures |r| == n
    ensures forall i :: 0 <= i < n ==> r[i] == if i < |s| then s[i] else 0
  {
    seq(n, i requires 0 <= i => if i < |s| then s[i] else 0)
  }

  lemma {:induction false} ValFit(s: seq<int>, n: nat, w: int)
    requires |s| <= n
    ensures Val(Fit(s, n), w) == Val(s, w)
  {
    hide Pow;
    var f := Fit(s, n);
    ValSplit(f, |s|, w);
    assert f[..|s|] == s;
    ValZeros(f[|s|..], w);
  }

  /** Keeping the low n limbs is reduction modulo w^n. */
  lemma {:induction false} ValFitMod(s: seq<int>, n: nat, w: int)
    requires w > 0 && Digits(s, w)
    ensures Pow(w, n) > 0 && Val(Fit(s, n), w) == Val(s, w) % Pow(w, n)
  {
    hide Pow, Val;
    var p, v := Pow(w, n), Val(Fit(s, n), w);
    PowPos(w, n);
    assert Digits(Fit(s, n), w);
    ValBound(Fit(s, n), w);
    var high := if |s| <= n then 0 else Val(s[n..], w);
    assert Val(s, w) == high * p + v by {
      if |s| <= n {
        ValFit(s, n, w);
      } else {
        ValSplit(s, n, w);
        assert s[..n] == Fit(s, n);
      }
    }
    DivModUnique(Val(s, w), high, v, p);
  }

  /** The most significant limb that differs decides the order. */
  lemma {:induction false} ValOrder(x: seq<int>, y: seq<int>, i: nat, w: int)
    requires w > 0 && |x| == |y| && i < |x| && Digits(x, w) && Digits(y, w)
    requires x[i + 1..] == y[i + 1..] && x[i] < y[i]
    ensures Val(x, w) < Val(y, w)
  {
    ValSplit(x, i + 1, w);
    ValSplit(y, i + 1, w);
    ValPrefix(x, i, w);
    ValPrefix(y, i, w);
    ValBound(x[..i], w);
    ValBound(y[..i], w);
    PowPos(w, i);
    MulMono(x[i] + 1, y[i], Pow(w, i));
    assert (x[i] + 1) * Pow(w, i) == x[i] * Pow(w, i) + Pow(w, i);
  }

  /** Limb sequences of one length stand for different numbers. */
  lemma {:induction false} ValInjective(x: seq<int>, y: seq<int>, w: int)
    requires w > 0 && |x| == |y| && Digits(x, w) && Digits(y, w) && Val(x, w) == Val(y, w)
    ensures x == y
  {
    if |x| > 0 {
      var n := |x| - 1;
      if x[n] < y[n] {
        ValOrder(x, y, n, w);
      } else if x[n] > y[n] {
        ValOrder(y, x, n, w);
      }
      ValInjective(x[..n], y[..n], w);
      assert x == x[..n] + [x[n]] && y == y[..n] + [y[n]];
    }
  }

  lemma {:induction false} PowTwo32()
    ensures Pow(2, 32) == W32 && Pow(2, 64) == W64
  {
    assert Pow(2, 8) == 256;
    PowAdd(2, 8, 8);
    PowAdd(2, 16, 16);
    PowAdd(2, 32, 32);
  }

  /** 32-bit limbs as powers of two. */
  lemma {:induction false} PowW32(k: nat)
    ensures Pow(W32, k) == Pow(2, 32 * k)
  {
    PowTwo32();
    PowMul(2, 32, k);
  }
}
