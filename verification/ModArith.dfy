/**
 Congruence modulo a positive integer, powers, and the cancellation law for odd moduli.
 The arithmetic modules (big integers, Poly1305, the ML-DSA transform) all state their
 results through these definitions.
 */
module ModArith {

  /** b to the power e. */
  function Pow(b: int, e: nat): int
    decreases e
  {
    if e == 0 then 1 else b * Pow(b, e - 1)
  }

  /** x and y leave the same remainder modulo m. */
  ghost predicate Cong(x: int, y: int, m: int)
    requires m > 0
  {
    (x - y) % m == 0
  }

  lemma {:induction false} MultipleMod(k: int, m: int)
    requires m > 0
    ensures (k * m) % m == 0
  {
    var q, r := (k * m) / m, (k * m) % m;
    assert k * m == q * m + r;
    assert (k - q) * m == r;
    MultipleBelow(k - q, m);
  }

  lemma {:induction false} MulAtLeast(d: int, m: int)
    requires m > 0
    ensures d >= 1 ==> d * m >= m
    ensures d <= -1 ==> d * m <= -m
  {
    if d >= 1 {
      MulMono(1, d, m);
    } else if d <= -1 {
      MulMono(d, -1, m);
    }
  }

  // A multiple of m that lies in [0, m) is zero.
  lemma {:induction false} MultipleBelow(d: int, m: int)
    requires m > 0 && 0 <= d * m < m
    ensures d == 0
  {
    MulAtLeast(d, m);
  }

  /** The quotient and remainder are the only way to write x as q*m + r with r in [0, m). */
  lemma {:induction false} DivModUnique(x: int, q: int, r: int, m: int)
    requires m > 0 && x == q * m + r && 0 <= r < m
    ensures x / m == q && x % m == r
  {
    var q', r' := x / m, x % m;
    assert x == q' * m + r';
    assert (q - q') * m == r' - r;
    if r' >= r {
      MultipleBelow(q - q', m);
    } else {
      assert (q' - q) * m == r - r';
      MultipleBelow(q' - q, m);
    }
  }

  lemma {:induction false} CongFromQuotient(x: int, y: int, q: int, m: int)
    requires m > 0 && x - y == q * m
    ensures Cong(x, y, m)
  {
    MultipleMod(q, m);
  }

  lemma {:induction false} CongQuotient(x: int, y: int, m: int) returns (q: int)
    requires m > 0 && Cong(x, y, m)
    ensures x - y == q * m
  {
    q := (x - y) / m;
  }

  lemma {:induction false} CongRefl(x: int, m: int)
    requires m > 0
    ensures Cong(x, x, m)
  {
    CongFromQuotient(x, x, 0, m);
  }

  lemma {:induction false} CongSym(x: int, y: int, m: int)
    requires m > 0 && Cong(x, y, m)
    ensures Cong(y, x, m)
  {
    var q := CongQuotient(x, y, m);
    CongFromQuotient(y, x, -q, m);
  }

  lemma {:induction false} CongTrans(x: int, y: int, z: int, m: int)
    requires m > 0 && Cong(x, y, m) && Cong(y, z, m)
    ensures Cong(x, z, m)
  {
    var q := CongQuotient(x, y, m);
    var p := CongQuotient(y, z, m);
    CongFromQuotient(x, z, q + p, m);
  }

  lemma {:induction false} CongAdd(x: int, y: int, u: int, v: int, m: int)
    requires m > 0 && Cong(x, y, m) && Cong(u, v, m)
    ensures Cong(x + u, y + v, m) && Cong(x - u, y - v, m)
  {
    var q := CongQuotient(x, y, m);
    var p := CongQuotient(u, v, m);
    CongFromQuotient(x + u, y + v, q + p, m);
    CongFromQuotient(x - u, y - v, q - p, m);
  }

  lemma {:induction false} CongMul(x: int, y: int, u: int, v: int, m: int)
    requires m > 0 && Cong(x, y, m) && Cong(u, v, m)
    ensures Cong(x * u, y * v, m)
  {
    var q := CongQuotient(x, y, m);
    var p := CongQuotient(u, v, m);
    calc {
      x * u - y * v;
      (x - y) * u + y * (u - v);
      (q * m) * u + y * (p * m);
      (q * u + y * p) * m;
    }
    CongFromQuotient(x * u, y * v, q * u + y * p, m);
  }

  lemma {:induction false} CongMod(x: int, m: int)
    requires m > 0
    ensures Cong(x % m, x, m)
  {
    CongFromQuotient(x % m, x, -(x / m), m);
  }

  /** Congruent numbers have equal remainders, and conversely. */
  lemma {:induction false} CongIffMod(x: int, y: int, m: int)
    requires m > 0
    ensures Cong(x, y, m) <==> x % m == y % m
  {
    if Cong(x, y, m) {
      var q := CongQuotient(x, y, m);
      calc {
        x;
        y + q * m;
        (y / m) * m + y % m + q * m;
        (y / m + q) * m + y % m;
      }
      DivModUnique(x, y / m + q, y % m, m);
    }
    if x % m == y % m {
      CongFromQuotient(x, y, x / m - y / m, m);
    }
  }

  /** Two residues in [0, m) that are congruent are equal. */
  lemma {:induction false} CongUnique(x: int, y: int, m: int)
    requires m > 0 && 0 <= x < m && 0 <= y < m && Cong(x, y, m)
    ensures x == y
  {
    CongIffMod(x, y, m);
    DivModUnique(x, 0, x, m);
    DivModUnique(y, 0, y, m);
  }

  lemma {:induction false} CongPow(x: int, y: int, e: nat, m: int)
    requires m > 0 && Cong(x, y, m)
    ensures Cong(Pow(x, e), Pow(y, e), m)
  {
    if e == 0 {
      CongRefl(1, m);
    } else {
      CongPow(x, y, e - 1, m);
      CongMul(x, y, Pow(x, e - 1), Pow(y, e - 1), m);
    }
  }

  lemma {:induction false} PowSucc(b: int, e: nat)
    ensures Pow(b, e + 1) == b * Pow(b, e)
  {
  }

  lemma {:induction false} PowPos(b: nat, e: nat)
    requires b > 0
    ensures Pow(b, e) > 0
  {
    if e > 0 {
      PowPos(b, e - 1);
      MulPos(b, Pow(b, e - 1));
    }
  }

  lemma {:induction false} MulPos(x: int, y: int)
    requires x > 0 && y > 0
    ensures x * y > 0
  {
  }

  lemma {:induction false} MulMono(x: int, y: int, k: int)
    requires x <= y && k >= 0
    ensures x * k <= y * k
  {
  }

  lemma {:induction false} PowAdd(b: int, e: nat, f: nat)
    ensures Pow(b, e + f) == Pow(b, e) * Pow(b, f)
  {
    if e > 0 {
      PowAdd(b, e - 1, f);
      calc {
        Pow(b, e + f);
        b * Pow(b, e - 1 + f);
        b * (Pow(b, e - 1) * Pow(b, f));
        (b * Pow(b, e - 1)) * Pow(b, f);
      }
    }
  }

  lemma {:induction false} PowMul(b: int, e: nat, f: nat)
    ensures e * f >= 0 && Pow(b, e * f) == Pow(Pow(b, e), f)
  {
    if f == 0 {
    } else {
      PowMul(b, e, f - 1);
      assert e * f == e + e * (f - 1);
      PowAdd(b, e, e * (f - 1));
    }
  }

  lemma {:induction false} PowMulBase(x: int, y: int, e: nat)
    ensures Pow(x * y, e) == Pow(x, e) * Pow(y, e)
  {
    if e > 0 {
      PowMulBase(x, y, e - 1);
      var p, q := Pow(x, e - 1), Pow(y, e - 1);
      calc {
        Pow(x * y, e);
        (x * y) * (p * q);
        { MulSwap(x, y, p, q); }
        (x * p) * (y * q);
      }
    }
  }

  lemma {:induction false} MulSwap(x: int, y: int, p: int, q: int)
    ensures (x * y) * (p * q) == (x * p) * (y * q)
  {
    calc {
      (x * y) * (p * q);
      x * (y * (p * q));
      x * (p * (y * q));
      (x * p) * (y * q);
    }
  }

  lemma {:induction false} OddTimesOdd(q: int, m: int)
    requires q % 2 == 1 && m % 2 == 1
    ensures (q * m) % 2 == 1
  {
    var h, s := m / 2, q / 2;
    calc {
      q * m;
      (2 * s + 1) * (2 * h + 1);
      2 * (2 * (s * h) + s + h) + 1;
    }
  }

  /** An odd modulus that divides 2x divides x. */
  lemma {:induction false} CancelTwo(x: int, m: int)
    requires m > 0 && m % 2 == 1 && Cong(2 * x, 0, m)
    ensures Cong(x, 0, m)
  {
    var q := CongQuotient(2 * x, 0, m);
    hide Cong;
    var s := q / 2;
    assert q == 2 * s by {
      if q % 2 == 1 {
        OddTimesOdd(q, m);
      }
    }
    HalfProduct(q, s, m, x);
    CongFromQuotient(x, 0, s, m);
  }

  lemma {:induction false} HalfProduct(q: int, s: int, m: int, x: int)
    requires q == 2 * s && q * m == 2 * x
    ensures s * m == x
  {
    assert (2 * s) * m == 2 * (s * m);
  }

  lemma {:induction false} CancelPowTwo(x: int, e: nat, m: int)
    requires m > 0 && m % 2 == 1 && Cong(x * Pow(2, e), 0, m)
    ensures Cong(x, 0, m)
  {
    if e > 0 {
      assert x * Pow(2, e) == 2 * (x * Pow(2, e - 1));
      CancelTwo(x * Pow(2, e - 1), m);
      CancelPowTwo(x, e - 1, m);
    }
  }

  /** Multiplication by a power of two can be cancelled modulo an odd number. */
  lemma {:induction false} CancelPowTwoCong(x: int, y: int, e: nat, m: int)
    requires m > 0 && m % 2 == 1 && Cong(x * Pow(2, e), y * Pow(2, e), m)
    ensures Cong(x, y, m)
  {
    assert x * Pow(2, e) - y * Pow(2, e) == (x - y) * Pow(2, e);
    CancelPowTwo(x - y, e, m);
  }
}
