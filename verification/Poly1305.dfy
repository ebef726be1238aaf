/**
 The Poly1305 authenticator (src/crypto/poly1305.c, section 2.5 of RFC 8439): five limbs of
 26 bits, with every sum and product in the machine word the code uses.
 */
module Poly1305 {
  import opened Words
  import opened ModArith
  import opened Limbs

  const B: nat := 0x400_0000
  const B2: nat := 0x10_0000_0000_0000
  const B3: nat := 0x4000_0000_0000_0000_0000
  const B4: nat := 0x100_0000_0000_0000_0000_0000_0000
  const P: nat := 0x3_FFFF_FFFF_FFFF_FFFF_FFFF_FFFF_FFFF_FFFB

  datatype L5 = L5(a0: u32, a1: u32, a2: u32, a3: u32, a4: u32)

  function LV(l: L5): nat {
    l.a0 + B * l.a1 + B2 * l.a2 + B3 * l.a3 + B4 * l.a4
  }

  // ---------------------------------------------------------------------------
  // Sixteen bytes as five limbs
  // ---------------------------------------------------------------------------

  function Le32(m: seq<byte>, i: nat): u32
    requires i + 4 <= |m|
  {
    (m[i] as int) + 256 * (m[i + 1] as int) + 0x1_0000 * (m[i + 2] as int) + 0x100_0000 * (m[i + 3] as int)
  }

  /** The limbs of a block; hibit is 2^24 for the 2^128 bit of a whole block. */
  function Chunk(m: seq<byte>, hibit: u32): L5
    requires |m| == 16 && hibit <= 0x100_0000
  {
    L5(Le32(m, 0) % B, Le32(m, 3) / 4 % B, Le32(m, 6) / 16 % B, Le32(m, 9) / 64 % B, Le32(m, 12) / 256 + hibit)
  }

  lemma {:induction false} ValFour(s: seq<byte>)
    requires |s| == 4
    ensures Val(s, 256) == Le32(s, 0)
  {
    assert Pow(256, 1) == 256 && Pow(256, 2) == 0x1_0000 && Pow(256, 3) == 0x100_0000;
    ValPrefix(s, 0, 256);
    ValPrefix(s, 1, 256);
    ValPrefix(s, 2, 256);
    ValPrefix(s, 3, 256);
    assert s[..0] == [] && s[..4] == s;
  }

  lemma {:induction false} ValSixteen(m: seq<byte>)
    requires |m| == 16
    ensures Val(m, 256) == Le32(m, 0) + 0x1_0000_0000 * Le32(m, 4) + 0x1_0000_0000_0000_0000 * Le32(m, 8)
      + 0x1_0000_0000_0000_0000_0000_0000 * Le32(m, 12)
  {
    hide Val;
    assert Pow(256, 4) == 0x1_0000_0000;
    var a, b, c := m[4..], m[8..], m[12..];
    ValSplit(m, 4, 256);
    ValSplit(a, 4, 256);
    ValSplit(b, 4, 256);
    assert a[4..] == b && b[4..] == c;
    ValFour(m[..4]);
    ValFour(a[..4]);
    ValFour(b[..4]);
    ValFour(c);
  }

  // A 32-bit word over four bytes, shifted down and cut to 26 bits.
  lemma {:induction false} Cut0(m: seq<byte>, i: nat)
    requires i + 4 <= |m|
    ensures var x: int, w: int := m[i], m[i + 3];
      Le32(m, i) / 1 % B == x / 1 + 256 * (m[i + 1] as int) + 65536 * (m[i + 2] as int) + 16777216 * (w % 4)
  {
    var x: int, y: int, z: int, w: int := m[i], m[i + 1], m[i + 2], m[i + 3];
    var q := x / 1 + 256 * y + 65536 * z + 16777216 * w;
    DivModUnique(x + 256 * y + 0x1_0000 * z + 0x100_0000 * w, q, x % 1, 1);
    DivModUnique(q, w / 4, x / 1 + 256 * y + 65536 * z + 16777216 * (w % 4), B);
  }

  lemma {:induction false} Cut2(m: seq<byte>, i: nat)
    requires i + 4 <= |m|
    ensures var x: int, w: int := m[i], m[i + 3];
      Le32(m, i) / 4 % B == x / 4 + 64 * (m[i + 1] as int) + 16384 * (m[i + 2] as int) + 4194304 * (w % 16)
  {
    var x: int, y: int, z: int, w: int := m[i], m[i + 1], m[i + 2], m[i + 3];
    var q := x / 4 + 64 * y + 16384 * z + 4194304 * w;
    DivModUnique(x + 256 * y + 0x1_0000 * z + 0x100_0000 * w, q, x % 4, 4);
    DivModUnique(q, w / 16, x / 4 + 64 * y + 16384 * z + 4194304 * (w % 16), B);
  }

  lemma {:induction false} Cut4(m: seq<byte>, i: nat)
    requires i + 4 <= |m|
    ensures var x: int, w: int := m[i], m[i + 3];
      Le32(m, i) / 16 % B == x / 16 + 16 * (m[i + 1] as int) + 4096 * (m[i + 2] as int) + 1048576 * (w % 64)
  {
    var x: int, y: int, z: int, w: int := m[i], m[i + 1], m[i + 2], m[i + 3];
    var q := x / 16 + 16 * y + 4096 * z + 1048576 * w;
    DivModUnique(x + 256 * y + 0x1_0000 * z + 0x100_0000 * w, q, x % 16, 16);
    DivModUnique(q, w / 64, x / 16 + 16 * y + 4096 * z + 1048576 * (w % 64), B);
  }

  lemma {:induction false} Cut6(m: seq<byte>, i: nat)
    requires i + 4 <= |m|
    ensures var x: int, w: int := m[i], m[i + 3];
      Le32(m, i) / 64 % B == x / 64 + 4 * (m[i + 1] as int) + 1024 * (m[i + 2] as int) + 262144 * (w % 256)
  {
    var x: int, y: int, z: int, w: int := m[i], m[i + 1], m[i + 2], m[i + 3];
    var q := x / 64 + 4 * y + 1024 * z + 262144 * w;
    DivModUnique(x + 256 * y + 0x1_0000 * z + 0x100_0000 * w, q, x % 64, 64);
    DivModUnique(q, w / 256, x / 64 + 4 * y + 1024 * z + 262144 * (w % 256), B);
  }

  lemma {:induction false} Cut8(m: seq<byte>, i: nat)
    requires i + 4 <= |m|
    ensures Le32(m, i) / 256 == (m[i + 1] as int) + 256 * (m[i + 2] as int) + 0x1_0000 * (m[i + 3] as int)
  {
    DivModUnique(Le32(m, i), (m[i + 1] as int) + 256 * (m[i + 2] as int) + 0x1_0000 * (m[i + 3] as int), m[i], 256);
  }

  /** Splitting the bytes that straddle two limbs loses nothing. */
  lemma {:induction false} Assemble(c: L5, b: seq<byte>, q3: int, r3: int, q6: int, r6: int, q9: int, r9: int,
                                    hibit: int)
    requires |b| == 16 && b[3] == 4 * q3 + r3 && b[6] == 16 * q6 + r6 && b[9] == 64 * q9 + r9
    requires c.a0 == (b[0] as int) + 256 * (b[1] as int) + 0x1_0000 * (b[2] as int) + 0x100_0000 * r3
    requires c.a1 == q3 + 64 * (b[4] as int) + 0x4000 * (b[5] as int) + 0x40_0000 * r6
    requires c.a2 == q6 + 16 * (b[7] as int) + 0x1000 * (b[8] as int) + 0x10_0000 * r9
    requires c.a3 == q9 + 4 * (b[10] as int) + 0x400 * (b[11] as int) + 0x4_0000 * (b[12] as int)
    requires c.a4 == (b[13] as int) + 256 * (b[14] as int) + 0x1_0000 * (b[15] as int) + hibit
    ensures LV(c) == Le32(b, 0) + 0x1_0000_0000 * Le32(b, 4) + 0x1_0000_0000_0000_0000 * Le32(b, 8)
      + 0x1_0000_0000_0000_0000_0000_0000 * Le32(b, 12) + B4 * hibit
  {
  }

  lemma {:induction false} ChunkLimbs(m: seq<byte>, hibit: u32)
    requires |m| == 16 && hibit <= 0x100_0000
    ensures var c := Chunk(m, hibit); var x3: int, x6: int, x9: int := m[3], m[6], m[9];
      && c.a0 == (m[0] as int) + 256 * (m[1] as int) + 0x1_0000 * (m[2] as int) + 0x100_0000 * (x3 % 4)
      && c.a1 == x3 / 4 + 64 * (m[4] as int) + 0x4000 * (m[5] as int) + 0x40_0000 * (x6 % 16)
      && c.a2 == x6 / 16 + 16 * (m[7] as int) + 0x1000 * (m[8] as int) + 0x10_0000 * (x9 % 64)
      && c.a3 == x9 / 64 + 4 * (m[10] as int) + 0x400 * (m[11] as int) + 0x4_0000 * (m[12] as int)
      && c.a4 == (m[13] as int) + 256 * (m[14] as int) + 0x1_0000 * (m[15] as int) + hibit
  {
    hide Le32;
    Cut0(m, 0);
    Cut2(m, 3);
    Cut4(m, 6);
    Cut6(m, 9);
    Cut8(m, 12);
  }

  lemma {:induction false} ChunkVal(m: seq<byte>, hibit: u32)
    requires |m| == 16 && hibit <= 0x100_0000
    ensures LV(Chunk(m, hibit)) == Val(m, 256) + B4 * hibit
  {
    hide Val, Chunk, LV, Le32;
    ValSixteen(m);
    ChunkLimbs(m, hibit);
    var x3: int, x6: int, x9: int := m[3], m[6], m[9];
    Assemble(Chunk(m, hibit), m, x3 / 4, x3 % 4, x6 / 16, x6 % 16, x9 / 64, x9 % 64, hibit);
  }

  // ---------------------------------------------------------------------------
  // One block
  // ---------------------------------------------------------------------------

  /**
   The products of the limbs, folded at 2^130, which is 5 modulo P: pij stands for the
   product of limb i and limb j.
   */
  lemma {:induction false} Folded(p00: int, p01: int, p02: int, p03: int, p04: int, p10: int, p11: int, p12: int,
                                  p13: int, p14: int, p20: int, p21: int, p22: int, p23: int, p24: int, p30: int,
                                  p31: int, p32: int, p33: int, p34: int, p40: int, p41: int, p42: int, p43: int,
                                  p44: int)
    ensures var full :=
        (p00 + B * p01 + B2 * p02 + B3 * p03 + B4 * p04)
        + B * (p10 + B * p11 + B2 * p12 + B3 * p13 + B4 * p14)
        + B2 * (p20 + B * p21 + B2 * p22 + B3 * p23 + B4 * p24)
        + B3 * (p30 + B * p31 + B2 * p32 + B3 * p33 + B4 * p34)
        + B4 * (p40 + B * p41 + B2 * p42 + B3 * p43 + B4 * p44);
      var folded :=
        (p00 + 5 * p14 + 5 * p23 + 5 * p32 + 5 * p41)
        + B * (p01 + p10 + 5 * p24 + 5 * p33 + 5 * p42)
        + B2 * (p02 + p11 + p20 + 5 * p34 + 5 * p43)
        + B3 * (p03 + p12 + p21 + p30 + 5 * p44)
        + B4 * (p04 + p13 + p22 + p31 + p40);
      full - folded == ((p14 + p23 + p32 + p41) + B * (p24 + p33 + p42) + B2 * (p34 + p43) + B3 * (p44)) * P
  {
  }

  lemma {:induction false} Row(x: int, r: L5)
    ensures x * LV(r) == x * r.a0 + B * (x * r.a1) + B2 * (x * r.a2) + B3 * (x * r.a3) + B4 * (x * r.a4)
  {
    Scale(x, r.a1, B);
    Scale(x, r.a2, B2);
    Scale(x, r.a3, B3);
    Scale(x, r.a4, B4);
    var a, b, c, d := B * r.a1, B2 * r.a2, B3 * r.a3, B4 * r.a4;
    assert x * (r.a0 + a + b + c + d) == x * r.a0 + x * a + x * b + x * c + x * d;
  }

  lemma {:induction false} Scale(x: int, y: int, k: int)
    ensures x * (k * y) == k * (x * y)
  {
  }

  // The five column sums; 5 * r.ai fits in 32 bits.
  function Columns(h: L5, r: L5): (int, int, int, int, int) {
    (Column0(h, r), Column1(h, r), Column2(h, r), Column3(h, r), Column4(h, r))
  }

  function Column0(h: L5, r: L5): int {
    h.a0 * r.a0 + h.a1 * (5 * r.a4) + h.a2 * (5 * r.a3) + h.a3 * (5 * r.a2) + h.a4 * (5 * r.a1)
  }

  function Column1(h: L5, r: L5): int {
    h.a0 * r.a1 + h.a1 * r.a0 + h.a2 * (5 * r.a4) + h.a3 * (5 * r.a3) + h.a4 * (5 * r.a2)
  }

  function Column2(h: L5, r: L5): int {
    h.a0 * r.a2 + h.a1 * r.a1 + h.a2 * r.a0 + h.a3 * (5 * r.a4) + h.a4 * (5 * r.a3)
  }

  function Column3(h: L5, r: L5): int {
    h.a0 * r.a3 + h.a1 * r.a2 + h.a2 * r.a1 + h.a3 * r.a0 + h.a4 * (5 * r.a4)
  }

  function Column4(h: L5, r: L5): int {
    h.a0 * r.a4 + h.a1 * r.a3 + h.a2 * r.a2 + h.a3 * r.a1 + h.a4 * r.a0
  }

  function ColumnSum(d: (int, int, int, int, int)): int {
    d.0 + B * d.1 + B2 * d.2 + B3 * d.3 + B4 * d.4
  }

  lemma {:induction false} ColumnsCong(h: L5, r: L5)
    ensures Cong(ColumnSum(Columns(h, r)), LV(h) * LV(r), P)
  {
    hide Cong;
    var R := LV(r);
    Row(h.a0, r);
    Row(h.a1, r);
    Row(h.a2, r);
    Row(h.a3, r);
    Row(h.a4, r);
    Rows(h, R);
    Fives(h, r);
    Folded(h.a0 * r.a0, h.a0 * r.a1, h.a0 * r.a2, h.a0 * r.a3, h.a0 * r.a4,
           h.a1 * r.a0, h.a1 * r.a1, h.a1 * r.a2, h.a1 * r.a3, h.a1 * r.a4,
           h.a2 * r.a0, h.a2 * r.a1, h.a2 * r.a2, h.a2 * r.a3, h.a2 * r.a4,
           h.a3 * r.a0, h.a3 * r.a1, h.a3 * r.a2, h.a3 * r.a3, h.a3 * r.a4,
           h.a4 * r.a0, h.a4 * r.a1, h.a4 * r.a2, h.a4 * r.a3, h.a4 * r.a4);
    CongFromQuotient(LV(h) * R, ColumnSum(Columns(h, r)),
                     (h.a1 * r.a4 + h.a2 * r.a3 + h.a3 * r.a2 + h.a4 * r.a1)
                     + B * (h.a2 * r.a4 + h.a3 * r.a3 + h.a4 * r.a2)
                     + B2 * (h.a3 * r.a4 + h.a4 * r.a3)
                     + B3 * (h.a4 * r.a4), P);
    CongSym(LV(h) * R, ColumnSum(Columns(h, r)), P);
  }

  lemma {:induction false} Rows(h: L5, R: int)
    ensures LV(h) * R == h.a0 * R + B * (h.a1 * R) + B2 * (h.a2 * R) + B3 * (h.a3 * R) + B4 * (h.a4 * R)
  {
    var a, b, c, d := B * h.a1, B2 * h.a2, B3 * h.a3, B4 * h.a4;
    assert (h.a0 + a + b + c + d) * R == h.a0 * R + a * R + b * R + c * R + d * R;
    assert a * R == B * (h.a1 * R) && b * R == B2 * (h.a2 * R) && c * R == B3 * (h.a3 * R) && d * R == B4 * (h.a4 * R);
  }

  lemma {:induction false} Fives(h: L5, r: L5)
    ensures h.a1 * (5 * r.a4) == 5 * (h.a1 * r.a4) && h.a2 * (5 * r.a3) == 5 * (h.a2 * r.a3)
    ensures h.a3 * (5 * r.a2) == 5 * (h.a3 * r.a2) && h.a4 * (5 * r.a1) == 5 * (h.a4 * r.a1)
    ensures h.a2 * (5 * r.a4) == 5 * (h.a2 * r.a4) && h.a3 * (5 * r.a3) == 5 * (h.a3 * r.a3)
    ensures h.a4 * (5 * r.a2) == 5 * (h.a4 * r.a2) && h.a3 * (5 * r.a4) == 5 * (h.a3 * r.a4)
    ensures h.a4 * (5 * r.a3) == 5 * (h.a4 * r.a3) && h.a4 * (5 * r.a4) == 5 * (h.a4 * r.a4)
  {
    Scale(h.a1, r.a4, 5);
    Scale(h.a2, r.a3, 5);
    Scale(h.a3, r.a2, 5);
    Scale(h.a4, r.a1, 5);
    Scale(h.a2, r.a4, 5);
    Scale(h.a3, r.a3, 5);
    Scale(h.a4, r.a2, 5);
    Scale(h.a3, r.a4, 5);
    Scale(h.a4, r.a3, 5);
    Scale(h.a4, r.a4, 5);
  }

  /** Between blocks every limb has 26 bits, but for a few units more in the second. */
  predicate HOk(h: L5) {
    h.a0 < B && h.a1 < B + 64 && h.a2 < B && h.a3 < B && h.a4 < B
  }

  /** With a block added. */
  predicate GOk(g: L5) {
    g.a0 <= 2 * B + 64 && g.a1 <= 2 * B + 64 && g.a2 <= 2 * B + 64 && g.a3 <= 2 * B + 64 && g.a4 <= 2 * B + 64
  }

  predicate ROk(r: L5) {
    r.a0 < B && r.a1 < B && r.a2 < B && r.a3 < B && r.a4 < B
  }

  lemma {:induction false} ProdBound(x: int, y: int, k: int)
    requires 0 <= x <= 2 * B + 64 && 0 <= y <= k * B && k >= 0
    ensures 0 <= x * y <= k * ((2 * B + 64) * B)
  {
    MulMono(x, 2 * B + 64, y);
    MulMono(y, k * B, 2 * B + 64);
    MulMono(0, x, y);
  }

  lemma {:induction false} ColumnBounds(g: L5, r: L5)
    requires GOk(g) && ROk(r)
    ensures var d := Columns(g, r); var m := (2 * B + 64) * B;
      && 0 <= d.0 <= 21 * m && 0 <= d.1 <= 17 * m && 0 <= d.2 <= 13 * m && 0 <= d.3 <= 9 * m && 0 <= d.4 <= 5 * m
  {
    var s1, s2, s3, s4 := 5 * r.a1, 5 * r.a2, 5 * r.a3, 5 * r.a4;
    ProdBound(g.a0, r.a0, 1); ProdBound(g.a1, s4, 5); ProdBound(g.a2, s3, 5); ProdBound(g.a3, s2, 5);
    ProdBound(g.a4, s1, 5);
    ProdBound(g.a0, r.a1, 1); ProdBound(g.a1, r.a0, 1); ProdBound(g.a2, s4, 5); ProdBound(g.a3, s3, 5);
    ProdBound(g.a4, s2, 5);
    ProdBound(g.a0, r.a2, 1); ProdBound(g.a1, r.a1, 1); ProdBound(g.a2, r.a0, 1); ProdBound(g.a3, s4, 5);
    ProdBound(g.a4, s3, 5);
    ProdBound(g.a0, r.a3, 1); ProdBound(g.a1, r.a2, 1); ProdBound(g.a2, r.a1, 1); ProdBound(g.a3, r.a0, 1);
    ProdBound(g.a4, s4, 5);
    ProdBound(g.a0, r.a4, 1); ProdBound(g.a1, r.a3, 1); ProdBound(g.a2, r.a2, 1); ProdBound(g.a3, r.a1, 1);
    ProdBound(g.a4, r.a0, 1);
  }

  /** What the carries do to the value: c units of 2^130 come back as 5 c. */
  lemma {:induction false} CarrySum(d: (int, int, int, int, int), c0: int, c1: int, c2: int, c3: int, c4: int, c5: int,
                                    h0: int, h1: int, h2: int, h3: int, h4: int, k0: int)
    requires d.0 == B * c0 + h0 && d.1 + c0 == B * c1 + h1 && d.2 + c1 == B * c2 + h2 && d.3 + c2 == B * c3 + h3
    requires d.4 + c3 == B * c4 + h4 && h0 + 5 * c4 == B * c5 + k0
    ensures ColumnSum(d) - (k0 + B * (h1 + c5) + B2 * h2 + B3 * h3 + B4 * h4) == c4 * P
  {
  }

  /** The inner part of blocks: multiply by r and carry, with no sum or carry leaving its word. */
  method MulCarry(g: L5, r: L5) returns (h: L5)
    requires GOk(g) && ROk(r)
    ensures HOk(h) && Cong(LV(h), LV(g) * LV(r), P)
  {
    hide Cong, LV, ColumnSum, Column0, Column1, Column2, Column3, Column4;
    ColumnBounds(g, r);
    var d0: u64, d1: u64, d2: u64, d3: u64, d4: u64 := Column0(g, r), Column1(g, r), Column2(g, r), Column3(g, r),
        Column4(g, r);
    var c0, h0 := Split(d0);
    d1 := d1 + c0;
    var c1, h1 := Split(d1);
    d2 := d2 + c1;
    var c2, h2 := Split(d2);
    d3 := d3 + c2;
    var c3, h3 := Split(d3);
    d4 := d4 + c3;
    var c4, h4 := Split(d4);
    var five: u32 := c4 * 5;
    var k0: u32 := h0 + five;
    var c5, k := Split(k0);
    CarrySum(Columns(g, r), c0, c1, c2, c3, c4, c5, h0, h1, h2, h3, h4, k);
    var k1: u32 := h1 + c5;
    h := L5(k, k1, h2, h3, h4);
    Carried(g, r, h, c4);
  }

  /** The low 26 bits, and the rest as a 32-bit carry. */
  method Split(d: u64) returns (c: u32, lo: u32)
    requires d < 0x400_0000_0000_0000
    ensures d == B * c + lo && lo < B
  {
    c, lo := d / B, d % B;
  }

  lemma {:induction false} Carried(g: L5, r: L5, h: L5, c4: int)
    requires ColumnSum(Columns(g, r)) - (h.a0 + B * h.a1 + B2 * h.a2 + B3 * h.a3 + B4 * h.a4) == c4 * P
    ensures Cong(LV(h), LV(g) * LV(r), P)
  {
    hide Cong, Columns, ColumnSum;
    var s := ColumnSum(Columns(g, r));
    CongFromQuotient(s, LV(h), c4, P);
    CongSym(s, LV(h), P);
    ColumnsCong(g, r);
    CongTrans(LV(h), s, LV(g) * LV(r), P);
  }

  // ---------------------------------------------------------------------------
  // The key
  // ---------------------------------------------------------------------------

  /** Clamping as section 2.5 of RFC 8439 has it: the top four bits of every fourth byte and the
      bottom two of the byte after it are cleared. */
  function ClampByte(i: nat, b: byte): byte {
    if i % 4 == 3 then b % 16 else if i % 4 == 0 && i > 0 then b - b % 4 else b
  }

  function Clamped(k: seq<byte>): (r: seq<byte>)
    requires |k| == 16
    ensures |r| == 16
  {
    seq(16, i requires 0 <= i < 16 => ClampByte(i, k[i]))
  }

  // The masks of elpis_poly1305_init, as arithmetic.
  function Mask1(x: nat): nat { x % 4 + 256 * (x / 256 % 0x4_0000) }
  function Mask2(x: nat): nat { x % 256 + 0x4000 * (x / 0x4000 % 0x1000) }
  function Mask3(x: nat): nat { x % 0x4000 + 0x10_0000 * (x / 0x10_0000 % 64) }

  lemma {:induction false} Masked1(m: seq<byte>, i: nat)
    requires i + 4 <= |m|
    ensures var x: int, y: int, z: int, w: int := m[i], m[i + 1], m[i + 2], m[i + 3];
      Mask1(Le32(m, i) / 4) == x % 16 / 4 + 64 * (y - y % 4) + 0x4000 * z + 0x40_0000 * (w % 16)
  {
    var x: int, y: int, z: int, w: int := m[i], m[i + 1], m[i + 2], m[i + 3];
    var v := x / 4 + 64 * y + 0x4000 * z + 0x40_0000 * w;
    DivModUnique(x + 256 * y + 0x1_0000 * z + 0x100_0000 * w, v, x % 4, 4);
    DivModUnique(v, x / 16 + 16 * y + 0x1000 * z + 0x10_0000 * w, x % 16 / 4, 4);
    DivModUnique(v, y / 4 + 64 * z + 0x4000 * w, x / 4 + 64 * (y % 4), 256);
    DivModUnique(y / 4 + 64 * z + 0x4000 * w, w / 16, y / 4 + 64 * z + 0x4000 * (w % 16), 0x4_0000);
  }

  lemma {:induction false} Masked2(m: seq<byte>, i: nat)
    requires i + 4 <= |m|
    ensures var x: int, y: int, z: int, w: int := m[i], m[i + 1], m[i + 2], m[i + 3];
      Mask2(Le32(m, i) / 16) == x / 16 + 16 * (y % 16) + 0x1000 * (z - z % 4) + 0x10_0000 * (w % 64)
  {
    var x: int, y: int, z: int, w: int := m[i], m[i + 1], m[i + 2], m[i + 3];
    var v := x / 16 + 16 * y + 0x1000 * z + 0x10_0000 * w;
    DivModUnique(x + 256 * y + 0x1_0000 * z + 0x100_0000 * w, v, x % 16, 16);
    DivModUnique(v, y / 16 + 16 * z + 0x1000 * w, x / 16 + 16 * (y % 16), 256);
    DivModUnique(v, z / 4 + 64 * w, x / 16 + 16 * y + 0x1000 * (z % 4), 0x4000);
    DivModUnique(z / 4 + 64 * w, w / 64, z / 4 + 64 * (w % 64), 0x1000);
  }

  lemma {:induction false} Masked3(m: seq<byte>, i: nat)
    requires i + 4 <= |m|
    ensures var x: int, y: int, z: int, w: int := m[i], m[i + 1], m[i + 2], m[i + 3];
      Mask3(Le32(m, i) / 64) == x / 64 + 4 * y + 0x400 * (z % 16) + 0x4_0000 * (w - w % 4)
  {
    var x: int, y: int, z: int, w: int := m[i], m[i + 1], m[i + 2], m[i + 3];
    var v := x / 64 + 4 * y + 0x400 * z + 0x4_0000 * w;
    DivModUnique(x + 256 * y + 0x1_0000 * z + 0x100_0000 * w, v, x % 64, 64);
    DivModUnique(v, z / 16 + 16 * w, x / 64 + 4 * y + 0x400 * (z % 16), 0x4000);
    DivModUnique(v, w / 4, x / 64 + 4 * y + 0x400 * z + 0x4_0000 * (w % 4), 0x10_0000);
    DivModUnique(w / 4, 0, w / 4, 64);
  }

  lemma {:induction false} Masked4(m: seq<byte>, i: nat)
    requires i + 4 <= |m|
    ensures var x: int, y: int, z: int, w: int := m[i], m[i + 1], m[i + 2], m[i + 3];
      Le32(m, i) / 256 % 0x10_0000 == y + 256 * z + 0x1_0000 * (w % 16)
  {
    var x: int, y: int, z: int, w: int := m[i], m[i + 1], m[i + 2], m[i + 3];
    var v := y + 256 * z + 0x1_0000 * w;
    DivModUnique(x + 256 * y + 0x1_0000 * z + 0x100_0000 * w, v, x, 256);
    DivModUnique(v, w / 16, y + 256 * z + 0x1_0000 * (w % 16), 0x10_0000);
  }

  /** The limbs of r straight from the key. */
  function KeyLimbs(k: seq<byte>): (r: L5)
    requires |k| == 16
    ensures ROk(r)
  {
    L5(Le32(k, 0) % B, Mask1(Le32(k, 3) / 4), Mask2(Le32(k, 6) / 16), Mask3(Le32(k, 9) / 64),
        Le32(k, 12) / 256 % 0x10_0000)
  }

  /** The masks do to the limbs what clamping does to the bytes. */
  lemma {:induction false} KeyClamped(k: seq<byte>)
    requires |k| == 16
    ensures LV(KeyLimbs(k)) == Val(Clamped(k), 256)
  {
    hide Val, LV, Chunk, KeyLimbs;
    var c := Clamped(k);
    KeyForm(k);
    ClampForm(k);
    assert KeyLimbs(k) == Chunk(c, 0);
    ChunkVal(c, 0);
  }

  /** The limbs of r byte by byte. */
  ghost predicate KeyShape(l: L5, k: seq<byte>)
    requires |k| == 16
  {
    var x3: int, x4: int, x6: int, x7: int, x8: int := k[3], k[4], k[6], k[7], k[8];
    var x9: int, x11: int, x12: int, x15: int := k[9], k[11], k[12], k[15];
    && l.a0 == (k[0] as int) + 256 * (k[1] as int) + 0x1_0000 * (k[2] as int) + 0x100_0000 * (x3 % 4)
    && l.a1 == x3 % 16 / 4 + 64 * (x4 - x4 % 4) + 0x4000 * (k[5] as int) + 0x40_0000 * (x6 % 16)
    && l.a2 == x6 / 16 + 16 * (x7 % 16) + 0x1000 * (x8 - x8 % 4) + 0x10_0000 * (x9 % 64)
    && l.a3 == x9 / 64 + 4 * (k[10] as int) + 0x400 * (x11 % 16) + 0x4_0000 * (x12 - x12 % 4)
    && l.a4 == (k[13] as int) + 256 * (k[14] as int) + 0x1_0000 * (x15 % 16)
  }

  lemma {:induction false} KeyForm(k: seq<byte>)
    requires |k| == 16
    ensures KeyShape(KeyLimbs(k), k)
  {
    hide Le32, Mask1, Mask2, Mask3;
    Cut0(k, 0);
    Masked1(k, 3);
    Masked2(k, 6);
    Masked3(k, 9);
    Masked4(k, 12);
  }

  lemma {:induction false} ClampForm(k: seq<byte>)
    requires |k| == 16
    ensures KeyShape(Chunk(Clamped(k), 0), k)
  {
    hide Chunk;
    var c := Clamped(k);
    ChunkLimbs(c, 0);
    var x3: int := k[3];
    assert x3 % 16 % 4 == x3 % 4;
  }

  // ---------------------------------------------------------------------------
  // The specification
  // ---------------------------------------------------------------------------

  /** Where the last block of a message starts. */
  function LastBlock(m: seq<byte>): (k: nat)
    requires |m| > 0
    ensures k % 16 == 0 && k < |m| <= k + 16
  {
    (|m| - 1) / 16 * 16
  }

  /** The polynomial of section 2.5 of RFC 8439: each block with a one byte put after it. */
  function Poly(r: int, m: seq<byte>): int
    decreases |m|
  {
    if |m| == 0 then 0
    else
      var k := LastBlock(m);
      var b := Val(m[k..], 256) + Pow(256, |m| - k);
      ((Poly(r, m[..k]) + b) * r) % P
  }

  /** The tag as a number: the polynomial plus the second half of the key, modulo 2^128. */
  function TagValue(key: seq<byte>, m: seq<byte>): int
    requires |key| == 32
  {
    (Poly(Val(Clamped(key[..16]), 256), m) + Val(key[16..], 256)) % W128
  }

  lemma {:induction false} LastBlockAt(m: seq<byte>, k: nat)
    requires k % 16 == 0 && k < |m| <= k + 16
    ensures LastBlock(m) == k
  {
  }

  lemma {:induction false} PolyStep(r: int, m: seq<byte>, b: seq<byte>)
    requires |m| % 16 == 0 && 0 < |b| <= 16
    ensures Poly(r, m + b) == ((Poly(r, m) + (Val(b, 256) + Pow(256, |b|))) * r) % P
  {
    hide Val, Pow, LastBlock;
    var w := m + b;
    LastBlockAt(w, |m|);
    assert w[..|m|] == m && w[|m|..] == b;
  }

  /** Adding a block to an accumulator that is right modulo P and multiplying keeps it right. */
  lemma {:induction false} Absorb(h: int, acc: int, b: int, r: int, h': int)
    requires Cong(h, acc, P) && Cong(h', (h + b) * r, P)
    ensures Cong(h', ((acc + b) * r) % P, P)
  {
    hide Cong;
    CongRefl(b, P);
    CongRefl(r, P);
    CongAdd(h, acc, b, b, P);
    CongMul(h + b, acc + b, r, r, P);
    CongTrans(h', (h + b) * r, (acc + b) * r, P);
    CongMod((acc + b) * r, P);
    CongSym(((acc + b) * r) % P, (acc + b) * r, P);
    CongTrans(h', (acc + b) * r, ((acc + b) * r) % P, P);
  }

  lemma {:induction false} Pow16()
    ensures Pow(256, 16) == W128 == B4 * 0x100_0000
  {
    assert Pow(256, 4) == 0x1_0000_0000;
    PowAdd(256, 4, 4);
    PowAdd(256, 8, 8);
  }

  // ---------------------------------------------------------------------------
  // The authenticator
  // ---------------------------------------------------------------------------

  /** The accumulator is the polynomial over the whole blocks of msg, and buf is what is left. */
  ghost predicate Tracks(h: int, r: int, buf: seq<byte>, msg: seq<byte>) {
    && |buf| < 16 && |buf| <= |msg| && (|msg| - |buf|) % 16 == 0
    && msg[|msg| - |buf|..] == buf && Cong(h, Poly(r, msg[..|msg| - |buf|]), P)
  }

  lemma {:induction false} TracksIntro(h: int, r: int, buf: seq<byte>, done: seq<byte>)
    requires |buf| < 16 && |done| % 16 == 0 && Cong(h, Poly(r, done), P)
    ensures Tracks(h, r, buf, done + buf)
  {
    hide Cong, Poly;
    assert (done + buf)[..|done|] == done;
  }

  lemma {:induction false} TracksStart(r: int)
    ensures Tracks(0, r, [], [])
  {
    CongRefl(0, P);
  }

  lemma {:induction false} TracksElim(h: int, r: int, buf: seq<byte>, msg: seq<byte>) returns (done: seq<byte>)
    requires Tracks(h, r, buf, msg)
    ensures |buf| < 16 && |done| % 16 == 0 && msg == done + buf && Cong(h, Poly(r, done), P)
  {
    hide Cong, Poly;
    done := msg[..|msg| - |buf|];
  }

  class Mac {
    const r: L5
    const pad: seq<u32>
    var h: L5
    var buf: seq<byte>
    ghost const key: seq<byte>
    ghost var msg: seq<byte>

    ghost predicate Valid()
      reads this
    {
      && |key| == 32 && r == KeyLimbs(key[..16]) && |pad| == 4 && Val(pad, W32) == Val(key[16..], 256)
      && HOk(h) && Tracks(LV(h), LV(r), buf, msg)
    }

    constructor (k: seq<byte>)
      requires |k| == 32
      ensures Valid() && key == k && msg == []
    {
      hide Val, Cong, KeyLimbs, Tracks, Poly, Le32;
      r := KeyLimbs(k[..16]);
      pad := [Le32(k, 16), Le32(k, 20), Le32(k, 24), Le32(k, 28)];
      h := L5(0, 0, 0, 0, 0);
      buf := [];
      key, msg := k, [];
      new;
      PadVal(k);
      assert Tracks(LV(h), LV(r), buf, msg) by {
        TracksStart(LV(r));
      }
    }

    /** blocks, for one block. */
    method Block(m: seq<byte>, hibit: u32)
      requires HOk(h) && ROk(r) && |m| == 16 && hibit <= 0x100_0000
      modifies this`h
      ensures HOk(h) && Cong(LV(h), (old(LV(h)) + (Val(m, 256) + B4 * hibit)) * LV(r), P)
    {
      hide Cong, Val;
      ChunkVal(m, hibit);
      var c := Chunk(m, hibit);
      var g := L5(h.a0 + c.a0, h.a1 + c.a1, h.a2 + c.a2, h.a3 + c.a3, h.a4 + c.a4);
      assert LV(g) == LV(h) + LV(c);
      h := MulCarry(g, r);
    }

    /** blocks, over whole blocks of the message. */
    method Blocks(m: seq<byte>, ghost pre: seq<byte>)
      requires HOk(h) && ROk(r) && |m| % 16 == 0 && |pre| % 16 == 0 && Cong(LV(h), Poly(LV(r), pre), P)
      modifies this`h
      ensures HOk(h) && Cong(LV(h), Poly(LV(r), pre + m), P)
    {
      hide Cong, Val, LV, Poly, HOk, ROk;
      var i := 0;
      assert pre + m[..0] == pre;
      while |m| - i >= 16
        invariant i <= |m| && i % 16 == 0 && HOk(h) && Cong(LV(h), Poly(LV(r), pre + m[..i]), P)
      {
        ghost var h0 := LV(h);
        var b := m[i..i + 16];
        Block(b, 0x100_0000);
        WholeBlock(h0, LV(r), pre + m[..i], b, LV(h));
        assert pre + m[..i] + b == pre + m[..i + 16];
        i := i + 16;
      }
      assert m[..i] == m;
    }

    /** elpis_poly1305_update. */
    method Update(m: seq<byte>)
      requires Valid()
      modifies this
      ensures Valid() && msg == old(msg) + m
    {
      hide Cong, Val, LV, Poly, KeyLimbs, HOk, Tracks;
      ghost var done := TracksElim(LV(h), LV(r), buf, msg);
      var rest := m;
      if |buf| > 0 {
        rest, done := TopUp(m, done);
      }
      assert old(msg) + m == done + buf + rest;
      if |buf| == 0 {
        assert done + buf + rest == done + rest;
        Absorbed(rest, done);
      } else {
        assert done + buf + rest == done + buf;
        TracksIntro(LV(h), LV(r), buf, done);
      }
      msg := old(msg) + m;
    }

    /** The partial block filled up as far as m goes, and absorbed when it is whole. */
    method TopUp(m: seq<byte>, ghost done: seq<byte>) returns (rest: seq<byte>, ghost done': seq<byte>)
      requires HOk(h) && ROk(r) && 0 < |buf| < 16 && |done| % 16 == 0 && Cong(LV(h), Poly(LV(r), done), P)
      modifies this`h, this`buf
      ensures HOk(h) && |buf| < 16 && |done'| % 16 == 0 && Cong(LV(h), Poly(LV(r), done'), P)
      ensures done' + buf + rest == done + old(buf) + m && (|buf| > 0 ==> rest == [])
    {
      hide Cong, Val, LV, Poly, HOk, ROk;
      var take := if 16 - |buf| > |m| then |m| else 16 - |buf|;
      buf := buf + m[..take];
      rest, done' := m[take..], done;
      assert m == m[..take] + rest;
      if |buf| == 16 {
        ghost var h0 := LV(h);
        var b := buf;
        Block(b, 0x100_0000);
        WholeBlock(h0, LV(r), done, b, LV(h));
        done', buf := done + b, [];
      }
    }

    /** The whole blocks of what is left, and the rest kept. */
    method Absorbed(m: seq<byte>, ghost done: seq<byte>)
      requires HOk(h) && ROk(r) && |done| % 16 == 0 && buf == [] && Cong(LV(h), Poly(LV(r), done), P)
      modifies this`h, this`buf
      ensures HOk(h) && Tracks(LV(h), LV(r), buf, done + m)
    {
      hide Cong, Val, LV, Poly, HOk, ROk, Tracks;
      var whole := |m| - |m| % 16;
      var rest := m;
      ghost var done' := done;
      if |m| >= 16 {
        Blocks(m[..whole], done);
        rest, done' := m[whole..], done + m[..whole];
      }
      if |rest| > 0 {
        buf := rest;
      }
      TracksIntro(LV(h), LV(r), buf, done');
      assert done' + buf == done + m;
    }

    /** elpis_poly1305_final. */
    method Final() returns (tag: seq<byte>)
      requires Valid()
      modifies this`h
      ensures |tag| == 16 && Val(tag, 256) == TagValue(key, msg)
    {
      hide Cong, Val, LV, Poly, KeyLimbs, HOk, ROk, Tracks, Clamped;
      ghost var done := TracksElim(LV(h), LV(r), buf, msg);
      if |buf| > 0 {
        var b := buf + [1] + seq(15 - |buf|, _ => 0);
        ghost var h0 := LV(h);
        LastPadded(buf, b);
        Block(b, 0);
        ShortBlock(h0, LV(r), done, buf, b, LV(h));
      } else {
        assert done + buf == done;
      }
      var c := CarryAll(h);
      var f := SubtractOnce(c);
      CongMod(LV(c), P);
      CongTrans(LV(f), LV(c), LV(h), P);
      Settled(LV(f), LV(h), LV(r), msg);
      var w0, w1, w2, w3 := Pack(f);
      tag := AddPad(w0, w1, w2, w3, pad);
      KeyClamped(key[..16]);
    }
  }

  lemma {:induction false} WholeBlock(h: int, r: int, pre: seq<byte>, b: seq<byte>, h': int)
    requires |pre| % 16 == 0 && |b| == 16 && Cong(h, Poly(r, pre), P)
    requires Cong(h', (h + (Val(b, 256) + B4 * 0x100_0000)) * r, P)
    ensures Cong(h', Poly(r, pre + b), P)
  {
    hide Cong, Val, Poly;
    Pow16();
    Absorb(h, Poly(r, pre), Val(b, 256) + B4 * 0x100_0000, r, h');
    PolyStep(r, pre, b);
  }

  lemma {:induction false} PadVal(k: seq<byte>)
    requires |k| == 32
    ensures Val([Le32(k, 16), Le32(k, 20), Le32(k, 24), Le32(k, 28)], W32) == Val(k[16..], 256)
  {
    hide Val;
    var m := k[16..];
    ValSixteen(m);
    FourWords(Le32(k, 16), Le32(k, 20), Le32(k, 24), Le32(k, 28));
  }

  lemma {:induction false} FourWords(a: int, b: int, c: int, d: int)
    ensures Val([a, b, c, d], W32) ==
      a + 0x1_0000_0000 * b + 0x1_0000_0000_0000_0000 * c + 0x1_0000_0000_0000_0000_0000_0000 * d
  {
    hide Val;
    assert Pow(W32, 0) == 1 && Pow(W32, 1) == W32 && Pow(W32, 2) == W64;
    assert Pow(W32, 3) == W32 * Pow(W32, 2);
    ValEmpty([], W32);
    ValSnoc([], a, W32);
    ValSnoc([a], b, W32);
    ValSnoc([a, b], c, W32);
    ValSnoc([a, b, c], d, W32);
    assert [] + [a] == [a] && [a] + [b] == [a, b] && [a, b] + [c] == [a, b, c] && [a, b, c] + [d] == [a, b, c, d];
  }

  // ---------------------------------------------------------------------------
  // The end
  // ---------------------------------------------------------------------------

  /** A full carry: afterwards every limb has 26 bits, and the value is the same modulo P. */
  method CarryAll(h: L5) returns (f: L5)
    requires HOk(h)
    ensures ROk(f) && Cong(LV(f), LV(h), P)
  {
    hide Cong;
    var c1, h1 := Split(h.a1);
    var k2: u32 := h.a2 + c1;
    var c2, h2 := Split(k2);
    var k3: u32 := h.a3 + c2;
    var c3, h3 := Split(k3);
    var k4: u32 := h.a4 + c3;
    var c4, h4 := Split(k4);
    var k0: u32 := h.a0 + c4 * 5;
    var c0, h0 := Split(k0);
    // A carry out of the top went through every limb from the second, which it left near zero.
    assert c4 > 0 ==> h1 < 64;
    var k1: u32 := h1 + c0;
    f := L5(h0, k1, h2, h3, h4);
    assert LV(h) - LV(f) == c4 * P;
    CongFromQuotient(LV(h), LV(f), c4, P);
    CongSym(LV(h), LV(f), P);
  }

  /** The conditional subtraction: h or h - P, whichever is below P, told apart by one borrow bit. */
  method SubtractOnce(h: L5) returns (f: L5)
    requires ROk(h)
    ensures ROk(f) && LV(f) == LV(h) % P
  {
    var k0: u32 := h.a0 + 5;
    var c0, g0 := Split(k0);
    var k1: u32 := h.a1 + c0;
    var c1, g1 := Split(k1);
    var k2: u32 := h.a2 + c1;
    var c2, g2 := Split(k2);
    var k3: u32 := h.a3 + c2;
    var c3, g3 := Split(k3);
    var g4: u32 := (h.a4 + c3 - B) % W32;
    assert LV(h) + 5 == g0 + B * g1 + B2 * g2 + B3 * g3 + B4 * (h.a4 + c3);
    if g4 / 0x8000_0000 == 0 {
      f := L5(g0, g1, g2, g3, g4);
      assert g4 == h.a4 + c3 - B;
      assert LV(f) == LV(h) - P;
      DivModUnique(LV(h), 1, LV(f), P);
    } else {
      f := h;
      assert h.a4 + c3 < B;
      DivModUnique(LV(h), 0, LV(f), P);
    }
  }

  /** The 130-bit number as four words, the two bits on top dropped. */
  method Pack(f: L5) returns (w0: u32, w1: u32, w2: u32, w3: u32)
    requires ROk(f)
    ensures w0 + W32 * w1 + W64 * w2 + W32 * W64 * w3 == LV(f) % W128
  {
    w0 := f.a0 + f.a1 % 64 * B;
    w1 := f.a1 / 64 + f.a2 % 0x1000 * 0x10_0000;
    w2 := f.a2 / 0x1000 + f.a3 % 0x4_0000 * 0x4000;
    w3 := f.a3 / 0x4_0000 + f.a4 % 0x100_0000 * 0x100;
    var low := w0 + W32 * w1 + W64 * w2 + W32 * W64 * w3;
    assert LV(f) == f.a4 / 0x100_0000 * W128 + low;
    DivModUnique(LV(f), f.a4 / 0x100_0000, low, W128);
  }

  /** A short last block gets its one byte inside the block instead of above it. */
  lemma {:induction false} LastPadded(buf: seq<byte>, b: seq<byte>)
    requires 0 < |buf| < 16 && b == buf + [1] + seq(15 - |buf|, _ => 0)
    ensures |b| == 16 && Val(b, 256) == Val(buf, 256) + Pow(256, |buf|)
  {
    hide Val;
    var z: seq<byte> := seq(15 - |buf|, _ => 0);
    ValSplit(b, |buf| + 1, 256);
    assert b[..|buf| + 1] == buf + [1] && b[|buf| + 1..] == z;
    ValSnoc(buf, 1, 256);
    ValZeros(z, 256);
  }

  lemma {:induction false} ShortBlock(h: int, r: int, pre: seq<byte>, buf: seq<byte>, b: seq<byte>, h': int)
    requires |pre| % 16 == 0 && 0 < |buf| < 16 && Cong(h, Poly(r, pre), P)
    requires Cong(h', (h + (Val(b, 256) + B4 * 0)) * r, P)
    requires Val(b, 256) == Val(buf, 256) + Pow(256, |buf|)
    ensures Cong(h', Poly(r, pre + buf), P)
  {
    hide Cong, Val, Poly;
    Absorb(h, Poly(r, pre), Val(b, 256), r, h');
    PolyStep(r, pre, buf);
  }

  lemma {:induction false} PolyReduced(r: int, m: seq<byte>)
    ensures 0 <= Poly(r, m) < P
  {
  }

  /** A number below P that is congruent to the polynomial is the polynomial. */
  lemma {:induction false} Settled(f: int, h: int, r: int, m: seq<byte>)
    requires 0 <= f < P && Cong(f, h, P) && Cong(h, Poly(r, m), P)
    ensures f == Poly(r, m)
  {
    hide Cong, Poly;
    CongTrans(f, h, Poly(r, m), P);
    PolyReduced(r, m);
    CongUnique(f, Poly(r, m), P);
  }

  method AddPad(w0: u32, w1: u32, w2: u32, w3: u32, pad: seq<u32>) returns (tag: seq<byte>)
    requires |pad| == 4
    ensures |tag| == 16 && Val(tag, 256) == (w0 + W32 * w1 + W64 * w2 + W32 * W64 * w3 + Val(pad, W32)) % W128
  {
    hide Val;
    var c0, t0 := Split32(w0 + pad[0]);
    var c1, t1 := Split32(w1 + pad[1] + c0);
    var c2, t2 := Split32(w2 + pad[2] + c1);
    var c3, t3 := Split32(w3 + pad[3] + c2);
    tag := Bytes32(t0) + Bytes32(t1) + Bytes32(t2) + Bytes32(t3);
    FourWords(pad[0], pad[1], pad[2], pad[3]);
    assert pad == [pad[0], pad[1], pad[2], pad[3]];
    ghost var low := t0 + W32 * t1 + W64 * t2 + W32 * W64 * t3;
    DivModUnique(w0 + W32 * w1 + W64 * w2 + W32 * W64 * w3 + Val(pad, W32), c3, low, W128);
    ValSixteen(tag);
    Bytes32Back(t0, tag, 0);
    Bytes32Back(t1, tag, 4);
    Bytes32Back(t2, tag, 8);
    Bytes32Back(t3, tag, 12);
  }

  method Split32(f: u64) returns (c: u32, lo: u32)
    ensures f == W32 * c + lo
  {
    c, lo := f / W32, f % W32;
  }

  function Bytes32(v: u32): (b: seq<byte>)
    ensures |b| == 4
  {
    [v % 256, v / 256 % 256, v / 0x1_0000 % 256, v / 0x100_0000]
  }

  lemma {:induction false} Bytes32Back(v: u32, m: seq<byte>, i: nat)
    requires i + 4 <= |m| && m[i..i + 4] == Bytes32(v)
    ensures Le32(m, i) == v
  {
    var b := m[i..i + 4];
    assert m[i] == b[0] && m[i + 1] == b[1] && m[i + 2] == b[2] && m[i + 3] == b[3];
    assert v / 0x1_0000 == v / 256 / 256 && v / 0x100_0000 == v / 256 / 256 / 256;
  }

  function Joined(parts: seq<seq<byte>>): seq<byte> {
    if |parts| == 0 then [] else Joined(parts[..|parts| - 1]) + parts[|parts| - 1]
  }

  /** For every key and every way of cutting the message into updates, the tag is that of section 2.5 of RFC 8439. */
  method Authenticate(key: seq<byte>, parts: seq<seq<byte>>) returns (tag: seq<byte>)
    requires |key| == 32
    ensures |tag| == 16 && Val(tag, 256) == TagValue(key, Joined(parts))
  {
    hide Val, TagValue;
    var p := new Mac(key);
    for i := 0 to |parts|
      invariant fresh(p) && p.Valid() && p.key == key && p.msg == Joined(parts[..i])
    {
      p.Update(parts[i]);
      assert parts[..i + 1][..i] == parts[..i];
    }
    assert parts[..|parts|] == parts;
    tag := p.Final();
  }
}
