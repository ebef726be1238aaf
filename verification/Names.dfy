/**
 Domain names (src/dns/name.c): labels, wire form, case folding and the canonical order of
 section 6.1 of RFC 4034.  A name is its labels, leftmost first; the root has none.
 */
module Names {
  import opened Words

  type Label = seq<byte>
  type Name = seq<Label>

  const MAX_NAME: nat := 255
  const MAX_LABEL: nat := 63
  const MAX_LABELS: nat := 128

  /** The wildcard label. */
  const STAR: Label := [42]

  predicate LabelOk(l: Label) {
    1 <= |l| <= MAX_LABEL
  }

  /** Length of the wire form, the root label included. */
  function WireLen(n: Name): nat {
    if |n| == 0 then 1 else 1 + |n[0]| + WireLen(n[1..])
  }

  predicate NameOk(n: Name) {
    (forall i :: 0 <= i < |n| ==> LabelOk(n[i])) && WireLen(n) <= MAX_NAME
  }

  /** The uncompressed wire form. */
  function Wire(n: Name): (w: seq<byte>)
    requires forall i :: 0 <= i < |n| ==> LabelOk(n[i])
    ensures |w| == WireLen(n)
  {
    if |n| == 0 then [0]
    else
      assert LabelOk(n[0]);
      var l: byte := |n[0]|;
      [l] + n[0] + Wire(n[1..])
  }

  /** A name of n labels takes at least 2n + 1 bytes, so 255 bytes never hold more than 127. */
  lemma {:induction false} LabelCount(n: Name)
    requires forall i :: 0 <= i < |n| ==> LabelOk(n[i])
    ensures 2 * |n| + 1 <= WireLen(n)
  {
    if |n| > 0 {
      LabelCount(n[1..]);
    }
  }

  lemma {:induction false} SuffixOk(n: Name, k: nat)
    requires NameOk(n) && k <= |n|
    ensures NameOk(n[k..]) && WireLen(n[k..]) <= WireLen(n)
    ensures k > 0 ==> WireLen(n[k..]) + 2 * k <= WireLen(n)
  {
    if k > 0 {
      SuffixOk(n, k - 1);
      assert n[k - 1..][1..] == n[k..];
      assert LabelOk(n[k - 1..][0]);
    } else {
      assert n[0..] == n;
    }
  }

  lemma {:induction false} SliceSlice<T>(s: seq<T>, a: nat, b: nat, i: nat, j: nat)
    requires a <= b <= |s| && i <= j <= b - a
    ensures s[a..b][i..j] == s[a + i..a + j]
    ensures j == b - a ==> s[a..b][i..] == s[a + i..a + j]
  {
    var x, y := s[a..b][i..j], s[a + i..a + j];
    forall k | 0 <= k < j - i
      ensures x[k] == y[k]
    {
      assert x[k] == s[a..b][i + k] == s[a + i + k];
    }
    assert x == y;
    if j == b - a {
      assert s[a..b][i..] == x;
    }
  }

  // ---------------------------------------------------------------------------
  // Case folding
  // ---------------------------------------------------------------------------

  function Lower(b: byte): byte {
    if 65 <= b <= 90 then b + 32 else b
  }

  function Fold(s: seq<byte>): (r: seq<byte>)
    ensures |r| == |s|
    ensures forall i :: 0 <= i < |s| ==> r[i] == Lower(s[i])
  {
    seq(|s|, i requires 0 <= i < |s| => Lower(s[i]))
  }

  /** The case-folded name, which is what all comparison is about. */
  function Canon(n: Name): (r: Name)
    ensures |r| == |n|
    ensures forall i :: 0 <= i < |n| ==> r[i] == Fold(n[i])
  {
    seq(|n|, i requires 0 <= i < |n| => Fold(n[i]))
  }

  /** elpis_eq_ci over two ranges of one length. */
  predicate EqCi(a: seq<byte>, b: seq<byte>) {
    |a| == |b| && Fold(a) == Fold(b)
  }

  lemma {:induction false} CanonTail(n: Name, i: nat)
    requires i <= |n|
    ensures Canon(n[i..]) == Canon(n)[i..]
  {
    assert Canon(n[i..]) == Canon(n)[i..];
  }

  lemma {:induction false} CanonStar(n: Name)
    ensures Canon([STAR] + n)[0] == STAR
  {
    assert Canon([STAR] + n)[0] == Fold(STAR);
    assert Fold(STAR) == STAR;
  }

  lemma {:induction false} CanonOk(n: Name)
    requires forall i :: 0 <= i < |n| ==> LabelOk(n[i])
    ensures (forall i :: 0 <= i < |n| ==> LabelOk(Canon(n)[i])) && WireLen(Canon(n)) == WireLen(n)
  {
    if |n| > 0 {
      CanonOk(n[1..]);
      CanonTail(n, 1);
    }
  }

  /**
   name_eq compares length and folded bytes of the wire form; that is equality of the
   folded names, because length bytes are below 'A' and so fold to themselves.
   */
  lemma {:induction false} WireEqIff(a: Name, b: Name)
    requires NameOk(a) && NameOk(b)
    ensures EqCi(Wire(a), Wire(b)) <==> Canon(a) == Canon(b)
  {
    if Canon(a) == Canon(b) {
      CanonWire(a);
      CanonWire(b);
    }
    if EqCi(Wire(a), Wire(b)) {
      WireEqNames(a, b);
    }
  }

  /** elpis_name_eq, on the wire forms of n and m. */
  method NameEq(a: seq<byte>, b: seq<byte>, ghost n: Name, ghost m: Name) returns (eq: bool)
    requires NameOk(n) && NameOk(m) && a == Wire(n) && b == Wire(m)
    ensures eq <==> Canon(n) == Canon(m)
  {
    hide Wire, Canon, NameOk;
    WireEqIff(n, m);
    if |a| != |b| {
      return false;
    }
    var i := 0;
    while i < |a|
      invariant 0 <= i <= |a| && forall j :: 0 <= j < i ==> Lower(a[j]) == Lower(b[j])
    {
      if Lower(a[i]) != Lower(b[i]) {
        assert Fold(a)[i] != Fold(b)[i];
        return false;
      }
      i := i + 1;
    }
    assert Fold(a) == Fold(b);
    return true;
  }

  // Folding the wire form and taking the wire form of the folded name are the same.
  lemma {:induction false} CanonWire(n: Name)
    requires forall i :: 0 <= i < |n| ==> LabelOk(n[i])
    ensures forall i :: 0 <= i < |n| ==> LabelOk(Canon(n)[i])
    ensures Wire(Canon(n)) == Fold(Wire(n))
  {
    CanonOk(n);
    if |n| > 0 {
      CanonWire(n[1..]);
      CanonTail(n, 1);
      assert Fold([|n[0]|]) == [|n[0]|];
      FoldConcat([|n[0]|] + n[0], Wire(n[1..]));
      FoldConcat([|n[0]|], n[0]);
    } else {
      assert Fold([0]) == [0];
    }
  }

  lemma {:induction false} FoldConcat(a: seq<byte>, b: seq<byte>)
    ensures Fold(a + b) == Fold(a) + Fold(b)
  {
  }

  // The first label of a wire form, and the rest.
  lemma {:induction false} WireHead(n: Name)
    requires |n| > 0 && forall i :: 0 <= i < |n| ==> LabelOk(n[i])
    ensures |Wire(n)| > 1 + |n[0]| && Wire(n)[0] == |n[0]|
    ensures Wire(n)[1..1 + |n[0]|] == n[0] && Wire(n)[1 + |n[0]|..] == Wire(n[1..])
  {
  }

  lemma {:induction false} WireEqNames(a: Name, b: Name)
    requires forall i :: 0 <= i < |a| ==> LabelOk(a[i])
    requires forall i :: 0 <= i < |b| ==> LabelOk(b[i])
    requires EqCi(Wire(a), Wire(b))
    ensures Canon(a) == Canon(b)
  {
    hide Wire, WireLen, Fold, Canon;
    var u, v := Wire(a), Wire(b);
    WireFirst(a);
    WireFirst(b);
    EqCiFirst(u, v);
    if |a| > 0 && |b| > 0 {
      var k := |a[0]|;
      WireHead(a);
      WireHead(b);
      EqCiSlice(u, v, 1, 1 + k);
      EqCiSlice(u, v, 1 + k, |u|);
      WireEqNames(a[1..], b[1..]);
      CanonTail(a, 1);
      CanonTail(b, 1);
      assert Canon(a) == [Fold(a[0])] + Canon(a)[1..] && Canon(b) == [Fold(b[0])] + Canon(b)[1..];
    }
  }

  lemma {:induction false} WireFirst(n: Name)
    requires forall i :: 0 <= i < |n| ==> LabelOk(n[i])
    ensures |Wire(n)| > 0 && Wire(n)[0] <= MAX_LABEL
    ensures Wire(n)[0] == if |n| == 0 then 0 else |n[0]|
    ensures |n| > 0 ==> Wire(n)[0] > 0
  {
  }

  lemma {:induction false} EqCiFirst(u: seq<byte>, v: seq<byte>)
    requires EqCi(u, v) && |u| > 0 && u[0] <= MAX_LABEL && v[0] <= MAX_LABEL
    ensures u[0] == v[0]
  {
    assert Fold(u)[0] == Fold(v)[0];
  }

  lemma {:induction false} EqCiSlice(u: seq<byte>, v: seq<byte>, i: nat, j: nat)
    requires EqCi(u, v) && i <= j <= |u|
    ensures EqCi(u[i..j], v[i..j])
  {
    FoldSlice(u, i, j);
    FoldSlice(v, i, j);
  }

  lemma {:induction false} FoldSlice(s: seq<byte>, i: nat, j: nat)
    requires i <= j <= |s|
    ensures Fold(s[i..j]) == Fold(s)[i..j]
  {
  }

  // ---------------------------------------------------------------------------
  // Canonical order
  // ---------------------------------------------------------------------------

  /** Labels as octet strings, a proper prefix first. */
  function LabelCmp(a: seq<byte>, b: seq<byte>): int {
    if |a| == 0 then (if |b| == 0 then 0 else -1)
    else if |b| == 0 then 1
    else if a[0] < b[0] then -1
    else if a[0] > b[0] then 1
    else LabelCmp(a[1..], b[1..])
  }

  /** Names label by label from the right, an ancestor first. */
  function NameCmp(a: Name, b: Name): int {
    if |a| == 0 then (if |b| == 0 then 0 else -1)
    else if |b| == 0 then 1
    else
      var c := LabelCmp(a[|a| - 1], b[|b| - 1]);
      if c != 0 then c else NameCmp(a[..|a| - 1], b[..|b| - 1])
  }

  /** elpis_name_canon_cmp: names in any case. */
  function CanonCmp(a: Name, b: Name): int {
    NameCmp(Canon(a), Canon(b))
  }

  lemma {:induction false} LabelCmpTotal(a: seq<byte>, b: seq<byte>)
    ensures -1 <= LabelCmp(a, b) <= 1
    ensures LabelCmp(b, a) == -LabelCmp(a, b)
    ensures LabelCmp(a, b) == 0 <==> a == b
  {
    if |a| > 0 && |b| > 0 {
      LabelCmpTotal(a[1..], b[1..]);
      assert a == [a[0]] + a[1..] && b == [b[0]] + b[1..];
    }
  }

  lemma {:induction false} LabelCmpTrans(a: seq<byte>, b: seq<byte>, c: seq<byte>)
    requires LabelCmp(a, b) <= 0 && LabelCmp(b, c) <= 0
    ensures LabelCmp(a, c) <= 0
  {
    if |a| > 0 && |b| > 0 && |c| > 0 {
      if a[0] == b[0] == c[0] {
        LabelCmpTrans(a[1..], b[1..], c[1..]);
      }
    }
  }

  /** The order is total, and two names compare equal exactly when they are the same name. */
  lemma {:induction false} NameCmpTotal(a: Name, b: Name)
    ensures -1 <= NameCmp(a, b) <= 1
    ensures NameCmp(b, a) == -NameCmp(a, b)
    ensures NameCmp(a, b) == 0 <==> a == b
  {
    if |a| > 0 && |b| > 0 {
      var x, y := a[|a| - 1], b[|b| - 1];
      LabelCmpTotal(x, y);
      NameCmpTotal(a[..|a| - 1], b[..|b| - 1]);
      assert a == a[..|a| - 1] + [x] && b == b[..|b| - 1] + [y];
    }
  }

  lemma {:induction false} NameCmpTrans(a: Name, b: Name, c: Name)
    requires NameCmp(a, b) <= 0 && NameCmp(b, c) <= 0
    ensures NameCmp(a, c) <= 0
    ensures NameCmp(a, b) < 0 || NameCmp(b, c) < 0 ==> NameCmp(a, c) < 0
  {
    NameCmpLe(a, b, c);
    NameCmpTotal(a, b);
    NameCmpTotal(b, c);
    NameCmpTotal(a, c);
    if NameCmp(a, c) == 0 {
      NameCmpTotal(b, a);
    }
  }

  lemma {:induction false} NameCmpLe(a: Name, b: Name, c: Name)
    requires NameCmp(a, b) <= 0 && NameCmp(b, c) <= 0
    ensures NameCmp(a, c) <= 0
  {
    if |a| > 0 && |b| > 0 && |c| > 0 {
      var x, y, z := a[|a| - 1], b[|b| - 1], c[|c| - 1];
      LabelCmpTotal(x, y);
      LabelCmpTotal(y, z);
      LabelCmpTotal(x, z);
      LabelCmpTrans(x, y, z);
      if x == z {
        LabelCmpTotal(y, x);
        NameCmpLe(a[..|a| - 1], b[..|b| - 1], c[..|c| - 1]);
      }
    }
  }

  // ---------------------------------------------------------------------------
  // Suffixes
  // ---------------------------------------------------------------------------

  /** n equals s or lies below it. */
  predicate Under(n: Name, s: Name) {
    |s| <= |n| && n[|n| - |s|..] == s
  }

  /** The rightmost k labels. */
  function Keep(n: Name, k: nat): (r: Name)
    ensures |r| == if k <= |n| then k else |n|
  {
    if k <= |n| then n[|n| - k..] else n
  }

  /** How many trailing labels a and b share. */
  function Common(a: Name, b: Name): (k: nat)
    ensures k <= |a| && k <= |b|
  {
    if |a| == 0 || |b| == 0 || a[|a| - 1] != b[|b| - 1] then 0
    else 1 + Common(a[..|a| - 1], b[..|b| - 1])
  }

  /** The shared labels are a common suffix, and no common suffix is longer. */
  lemma {:induction false} CommonIsLongest(a: Name, b: Name, k: nat)
    requires k <= |a| && k <= |b|
    ensures k <= Common(a, b) <==> Keep(a, k) == Keep(b, k)
  {
    if k > 0 {
      var x, y := a[..|a| - 1], b[..|b| - 1];
      CommonIsLongest(x, y, k - 1);
      KeepLast(a, k);
      KeepLast(b, k);
    }
  }

  lemma {:induction false} KeepLast(a: Name, k: nat)
    requires 1 <= k <= |a|
    ensures Keep(a, k) == Keep(a[..|a| - 1], k - 1) + [a[|a| - 1]]
  {
  }

  /** An ancestor sorts before everything below it. */
  lemma {:induction false} AncestorFirst(n: Name, s: Name)
    requires Under(n, s) && |s| < |n|
    ensures NameCmp(s, n) < 0
  {
    if |s| > 0 {
      LabelCmpTotal(s[|s| - 1], n[|n| - 1]);
      AncestorFirst(n[..|n| - 1], s[..|s| - 1]);
    }
  }

  /**
   The names under one suffix are neighbours: whatever sorts between two of them is under
   that suffix as well.
   */
  lemma {:induction false} SuffixConvex(a: Name, b: Name, c: Name, s: Name)
    requires Under(a, s) && Under(c, s) && NameCmp(a, b) <= 0 && NameCmp(b, c) <= 0
    ensures Under(b, s)
  {
    if |s| > 0 {
      var x, y := a[|a| - 1], b[|b| - 1];
      LabelCmpTotal(x, y);
      assert c[|c| - 1] == x && s[|s| - 1] == x;
      LabelCmpTotal(y, x);
      var r := s[..|s| - 1];
      UnderInit(a, s);
      UnderInit(c, s);
      SuffixConvex(a[..|a| - 1], b[..|b| - 1], c[..|c| - 1], r);
      assert b == b[..|b| - 1] + [y] && s == r + [x];
      UnderSnoc(b[..|b| - 1], r, x);
    }
  }

  lemma {:induction false} UnderInit(n: Name, s: Name)
    requires Under(n, s) && |s| > 0
    ensures Under(n[..|n| - 1], s[..|s| - 1]) && n[|n| - 1] == s[|s| - 1]
  {
    var k := |n| - |s|;
    assert n[k..][|s| - 1] == s[|s| - 1];
    assert n[..|n| - 1][k..] == n[k..][..|s| - 1];
  }

  lemma {:induction false} UnderSnoc(n: Name, s: Name, l: Label)
    requires Under(n, s)
    ensures Under(n + [l], s + [l])
  {
    var k := |n| - |s|;
    assert (n + [l])[k..] == n[k..] + [l];
  }

  // ---------------------------------------------------------------------------
  // The comparison as it runs on wire bytes
  // ---------------------------------------------------------------------------

  /** Offset of label k in the wire form. */
  ghost function Off(n: Name, k: nat): int
    requires k <= |n|
  {
    WireLen(n) - WireLen(n[k..])
  }

  lemma {:induction false} OffStep(n: Name, k: nat)
    requires NameOk(n) && k <= |n|
    ensures 0 <= Off(n, k) < |Wire(n)| && Off(n, 0) == 0
    ensures k < |n| ==> Off(n, k + 1) == Off(n, k) + 1 + |n[k]|
  {
    SuffixOk(n, k);
    assert n[0..] == n;
    if k < |n| {
      assert n[k..][1..] == n[k + 1..];
    }
  }

  lemma {:induction false} WireFrom(n: Name, k: nat)
    requires NameOk(n) && k <= |n|
    ensures 0 <= Off(n, k) < |Wire(n)| && Wire(n)[Off(n, k)..] == Wire(n[k..])
    decreases k
  {
    hide Wire, WireLen, Off;
    OffStep(n, k);
    if k > 0 {
      WireFrom(n, k - 1);
      OffStep(n, k - 1);
      SuffixOk(n, k - 1);
      WireHead(n[k - 1..]);
      assert n[k - 1..][1..] == n[k..];
      var o, m := Off(n, k - 1), |n[k - 1]|;
      assert Wire(n)[o..][1 + m..] == Wire(n)[o + 1 + m..];
    } else {
      assert n[0..] == n;
    }
  }

  lemma {:induction false} WireAt(n: Name, k: nat)
    requires NameOk(n) && k <= |n|
    ensures 0 <= Off(n, k) < |Wire(n)|
    ensures k < |n| ==> Off(n, k + 1) == Off(n, k) + 1 + |n[k]| && Wire(n)[Off(n, k)] == |n[k]|
    ensures k < |n| ==> Off(n, k) + 1 + |n[k]| < |Wire(n)|
    ensures k < |n| ==> Wire(n)[Off(n, k) + 1..Off(n, k) + 1 + |n[k]|] == n[k]
    ensures k == |n| ==> Wire(n)[Off(n, k)] == 0
  {
    hide WireLen, Off;
    WireFrom(n, k);
    OffStep(n, k);
    var o := Off(n, k);
    assert Wire(n)[o] == Wire(n)[o..][0];
    if k < |n| {
      OffStep(n, k + 1);
      SuffixOk(n, k);
      WireHead(n[k..]);
      assert Wire(n)[o..][1..1 + |n[k]|] == Wire(n)[o + 1..o + 1 + |n[k]|];
    }
  }

  /** The offset of each label, by walking the length bytes. */
  method LabelOffsets(d: seq<byte>, ghost n: Name) returns (o: seq<nat>)
    requires NameOk(n) && d == Wire(n)
    ensures |o| == |n| && forall k :: 0 <= k < |n| ==> o[k] == Off(n, k)
  {
    hide Wire, WireLen, Off;
    o := [];
    var i: nat := 0;
    OffStep(n, 0);
    LabelCount(n);
    while i < |d| && d[i] != 0 && |o| < MAX_LABELS
      invariant |o| <= |n| && i == Off(n, |o|)
      invariant forall k :: 0 <= k < |o| ==> o[k] == Off(n, k)
      decreases |n| - |o|
    {
      WireAt(n, |o|);
      o := o + [i];
      i := i + 1 + d[i];
    }
    WireAt(n, |o|);
  }

  lemma {:induction false} LabelCmpStep(a: seq<byte>, b: seq<byte>, j: nat)
    requires j <= |a| && j <= |b|
    ensures j < |a| && j < |b| && a[j] == b[j] ==> LabelCmp(a[j..], b[j..]) == LabelCmp(a[j + 1..], b[j + 1..])
    ensures j < |a| && j < |b| && a[j] < b[j] ==> LabelCmp(a[j..], b[j..]) == -1
    ensures j < |a| && j < |b| && a[j] > b[j] ==> LabelCmp(a[j..], b[j..]) == 1
    ensures j == |a| && j < |b| ==> LabelCmp(a[j..], b[j..]) == -1
    ensures j < |a| && j == |b| ==> LabelCmp(a[j..], b[j..]) == 1
    ensures j == |a| && j == |b| ==> LabelCmp(a[j..], b[j..]) == 0
  {
    if j < |a| && j < |b| {
      assert a[j..][1..] == a[j + 1..] && b[j..][1..] == b[j + 1..];
    }
  }

  /** One label of the comparison: folded bytes up to the shorter length, then the lengths. */
  method CompareLabels(x: seq<byte>, y: seq<byte>) returns (c: int)
    ensures c == LabelCmp(Fold(x), Fold(y))
  {
    var m := if |x| < |y| then |x| else |y|;
    ghost var a, b := Fold(x), Fold(y);
    var j := 0;
    assert a[0..] == a && b[0..] == b;
    while j < m
      invariant 0 <= j <= m
      invariant LabelCmp(a, b) == LabelCmp(a[j..], b[j..])
    {
      LabelCmpStep(a, b, j);
      var p, q := Lower(x[j]), Lower(y[j]);
      if p != q {
        return if p < q then -1 else 1;
      }
      j := j + 1;
    }
    LabelCmpStep(a, b, j);
    if |x| != |y| {
      return if |x| < |y| then -1 else 1;
    }
    return 0;
  }

  lemma {:induction false} NameCmpStep(a: Name, b: Name, k: nat)
    requires k <= |a| && k <= |b|
    ensures k < |a| && k < |b| ==>
              var c := LabelCmp(a[|a| - 1 - k], b[|b| - 1 - k]);
              NameCmp(a[..|a| - k], b[..|b| - k]) == if c != 0 then c else NameCmp(a[..|a| - 1 - k], b[..|b| - 1 - k])
    ensures k == |a| || k == |b| ==>
              NameCmp(a[..|a| - k], b[..|b| - k]) == if |a| == |b| then 0 else if |a| < |b| then -1 else 1
  {
    if k < |a| && k < |b| {
      var x, y := a[..|a| - k], b[..|b| - k];
      assert x[..|x| - 1] == a[..|a| - 1 - k] && y[..|y| - 1] == b[..|b| - 1 - k];
    }
  }

  /** elpis_name_canon_cmp on wire forms computes the canonical order. */
  method CanonCmpWire(a: seq<byte>, b: seq<byte>, ghost x: Name, ghost y: Name) returns (c: int)
    requires NameOk(x) && NameOk(y) && a == Wire(x) && b == Wire(y)
    ensures c == CanonCmp(x, y)
  {
    hide Wire, WireLen, LabelCmp, NameCmp, Off;
    var ao := LabelOffsets(a, x);
    var bo := LabelOffsets(b, y);
    ghost var u, v := Canon(x), Canon(y);
    var k := 0;
    assert u[..|u|] == u && v[..|v|] == v;
    while k < |ao| && k < |bo|
      invariant 0 <= k <= |ao| && k <= |bo|
      invariant NameCmp(u, v) == NameCmp(u[..|u| - k], v[..|v| - k])
    {
      var p, q := ao[|ao| - 1 - k], bo[|bo| - 1 - k];
      WireAt(x, |x| - 1 - k);
      WireAt(y, |y| - 1 - k);
      var d := CompareLabels(a[p + 1..p + 1 + a[p]], b[q + 1..q + 1 + b[q]]);
      NameCmpStep(u, v, k);
      if d != 0 {
        return d;
      }
      k := k + 1;
    }
    NameCmpStep(u, v, k);
    if |ao| == |bo| {
      return 0;
    }
    return if |ao| < |bo| then -1 else 1;
  }

  /** elpis_name_common_labels: trim the deeper name, then climb until the two coincide. */
  method CommonLabels(a: Name, b: Name) returns (k: nat)
    ensures k == Common(Canon(a), Canon(b))
  {
    hide Canon, Common, Keep, Fold;
    ghost var u, v := Canon(a), Canon(b);
    var x, y := a, b;
    KeepAll(a);
    KeepAll(b);
    while |x| > |y|
      invariant y == b && |x| <= |a| && x == Keep(a, |x|) && (|x| < |y| ==> x == a)
    {
      KeepStep(a, |x|);
      x := x[1..];
    }
    while |y| > |x|
      invariant |x| <= |y| <= |b| && y == Keep(b, |y|)
    {
      KeepStep(b, |y|);
      y := y[1..];
    }
    ghost var top := |x|;
    while |x| > 0 && |y| > 0
      invariant |x| == |y| <= top && x == Keep(a, |x|) && y == Keep(b, |y|)
      invariant forall j :: |x| < j <= top ==> Keep(u, j) != Keep(v, j)
    {
      CanonKeep(a, |x|);
      CanonKeep(b, |y|);
      if Canon(x) == Canon(y) {
        CommonExactly(u, v, |x|, top);
        return |x|;
      }
      KeepStep(a, |x|);
      KeepStep(b, |y|);
      x := x[1..];
      y := y[1..];
    }
    KeepNone(u, v);
    CommonExactly(u, v, 0, top);
    return 0;
  }

  lemma {:induction false} KeepAll(n: Name)
    ensures Keep(n, |n|) == n
  {
  }

  lemma {:induction false} KeepNone(m: Name, n: Name)
    ensures Keep(m, 0) == Keep(n, 0)
  {
  }

  lemma {:induction false} KeepStep(n: Name, k: nat)
    requires 1 <= k <= |n|
    ensures Keep(n, k)[1..] == Keep(n, k - 1)
  {
  }

  lemma {:induction false} CanonKeep(n: Name, k: nat)
    requires k <= |n|
    ensures Canon(Keep(n, k)) == Keep(Canon(n), k)
  {
    CanonTail(n, |n| - k);
  }

  lemma {:induction false} CommonExactly(u: Name, v: Name, k: nat, top: nat)
    requires k <= top <= |u| && top <= |v| && (top == |u| || top == |v|)
    requires Keep(u, k) == Keep(v, k)
    requires forall j :: k < j <= top ==> Keep(u, j) != Keep(v, j)
    ensures Common(u, v) == k
  {
    hide Common;
    CommonIsLongest(u, v, k);
    if k < top {
      CommonIsLongest(u, v, k + 1);
    }
  }
}
