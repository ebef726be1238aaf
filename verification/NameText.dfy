/**
 Names as text (src/dns/name.c): printing with escapes, and reading them back.
 */
module NameText {
  import opened Words
  import opened Names

  const DOT: byte := 46
  const BACKSLASH: byte := 92

  predicate IsDigit(c: byte) {
    48 <= c <= 57
  }

  // ---------------------------------------------------------------------------
  // Printing
  // ---------------------------------------------------------------------------

  /** The characters that are printed with a backslash: . \ ; ( ) " @ $ */
  predicate Special(c: byte) {
    c == DOT || c == BACKSLASH || c == 59 || c == 40 || c == 41 || c == 34 || c == 64 || c == 36
  }

  function EscByte(c: byte): (t: seq<byte>)
    ensures 1 <= |t| <= 4
  {
    if Special(c) then [BACKSLASH, c]
    else if 0x20 < c < 0x7F then [c]
    else [BACKSLASH, 48 + c / 100, 48 + c / 10 % 10, 48 + c % 10]
  }

  function EscLabel(l: Label): seq<byte> {
    if |l| == 0 then [] else EscByte(l[0]) + EscLabel(l[1..])
  }

  function EscName(n: Name): seq<byte> {
    if |n| == 0 then [] else EscLabel(n[0]) + [DOT] + EscName(n[1..])
  }

  function Text(n: Name): seq<byte> {
    if |n| == 0 then [DOT] else EscName(n)
  }

  lemma {:induction false} EscLabelSnoc(l: Label, k: nat)
    requires k < |l|
    ensures EscLabel(l[..k + 1]) == EscLabel(l[..k]) + EscByte(l[k])
    decreases k
  {
    hide EscByte;
    if k > 0 {
      EscLabelSnoc(l[1..], k - 1);
      assert l[..k + 1][1..] == l[1..][..k] && l[..k][1..] == l[1..][..k - 1];
    } else {
      assert l[..1] == [l[0]] && l[..1][1..] == [] && l[..0] == [];
    }
  }

  lemma {:induction false} EscLabelGrows(l: Label, k: nat)
    requires k <= |l|
    ensures |EscLabel(l[..k])| <= |EscLabel(l)|
    decreases |l| - k
  {
    hide EscLabel, EscByte;
    if k < |l| {
      EscLabelSnoc(l, k);
      EscLabelGrows(l, k + 1);
    } else {
      assert l[..k] == l;
    }
  }

  /** One label into the buffer. */
  method PutLabel(o: seq<byte>, l: Label, sz: nat) returns (r: Option<seq<byte>>)
    requires |o| < sz
    ensures r.Some? <==> |o| + |EscLabel(l)| < sz
    ensures r.Some? ==> r.value == o + EscLabel(l)
  {
    hide EscByte, EscLabel;
    var p := o;
    assert EscLabel(l[..0]) == [] by {
      EscNothing(l);
    }
    for k := 0 to |l|
      invariant p == o + EscLabel(l[..k]) && |p| < sz
    {
      EscLabelSnoc(l, k);
      var e := EscByte(l[k]);
      if |p| + |e| >= sz {
        EscLabelGrows(l, k + 1);
        return None;
      }
      p := p + e;
    }
    assert l[..|l|] == l;
    return Some(p);
  }

  lemma {:induction false} EscNothing(l: Label)
    ensures EscLabel(l[..0]) == []
  {
  }

  lemma {:induction false} EscNameStep(n: Name, i: nat)
    requires i < |n|
    ensures EscName(n[i..]) == EscLabel(n[i]) + [DOT] + EscName(n[i + 1..])
  {
    hide EscLabel;
    assert n[i..][1..] == n[i + 1..];
  }

  lemma {:induction false} Regroup(a: seq<byte>, b: seq<byte>, c: seq<byte>)
    ensures a + (b + [DOT] + c) == a + b + [DOT] + c
  {
  }

  /** elpis_name_to_text into a buffer of sz bytes, the final NUL included. */
  method ToText(n: Name, sz: nat) returns (r: Option<seq<byte>>)
    ensures r.Some? <==> sz >= 2 && |Text(n)| < sz
    ensures r.Some? ==> r.value == Text(n)
  {
    if sz < 2 {
      return None;
    }
    if |n| == 0 {
      return Some([DOT]);
    }
    assert n[0..] == n && EscName(n[|n|..]) == [];
    hide EscLabel, EscName;
    var o: seq<byte> := [];
    for i := 0 to |n|
      invariant o + EscName(n[i..]) == EscName(n) && |o| < sz
    {
      EscNameStep(n, i);
      assert |EscName(n)| == |o| + |EscLabel(n[i])| + 1 + |EscName(n[i + 1..])|;
      var q := PutLabel(o, n[i], sz);
      if q.None? {
        return None;
      }
      if |q.value| + 1 >= sz {
        return None;
      }
      Regroup(o, EscLabel(n[i]), EscName(n[i + 1..]));
      o := q.value + [DOT];
    }
    assert o + [] == o;
    return Some(o);
  }

  // ---------------------------------------------------------------------------
  // Reading
  // ---------------------------------------------------------------------------

  /** What a backslash and what follows it stand for, and how many bytes that is. */
  function Escape(s: seq<byte>, i: nat): (r: Option<(byte, nat)>)
    requires i <= |s|
    ensures r.Some? ==> 1 <= r.value.1 && i + r.value.1 <= |s|
  {
    if i == |s| then None
    else if !IsDigit(s[i]) then Some((s[i], 1))
    else if i + 3 > |s| || !IsDigit(s[i + 1]) || !IsDigit(s[i + 2]) then None
    else
      var v := (s[i] - 48) as int * 100 + (s[i + 1] - 48) as int * 10 + (s[i + 2] - 48) as int;
      if v > 255 then None else Some((v, 3))
  }

  /** Reading from i on, with whole labels done behind us, one being read, and out bytes of wire form. */
  function Scan(s: seq<byte>, i: nat, done: Name, cur: Label, out: nat): Option<Name>
    requires i <= |s|
    decreases |s| - i
  {
    if i == |s| then (if cur == [] || out + 1 > MAX_NAME then None else Some(done + [cur]))
    else if s[i] == DOT then
      if cur == [] || |done| + 1 > MAX_LABELS then None
      else if i + 1 == |s| then (if out + 1 > MAX_NAME then None else Some(done + [cur]))
      else if out + 1 >= MAX_NAME then None
      else Scan(s, i + 1, done + [cur], [], out + 1)
    else
      var e := if s[i] == BACKSLASH then Escape(s, i + 1) else Some((s[i], 0));
      if e.None? || |cur| >= MAX_LABEL || out + 2 > MAX_NAME then None
      else Scan(s, i + 1 + e.value.1, done, cur + [e.value.0], out + 1)
  }

  function FromText(s: seq<byte>): Option<Name> {
    if s == [DOT] then Some([])
    else if s == [] then None
    else Scan(s, 0, [], [], 1)
  }

  // ---------------------------------------------------------------------------
  // There and back
  // ---------------------------------------------------------------------------

  /** What stands at i in the text. */
  ghost predicate At(s: seq<byte>, i: nat, w: seq<byte>) {
    i + |w| <= |s| && s[i..i + |w|] == w
  }

  lemma {:induction false} AtConcat(s: seq<byte>, i: nat, u: seq<byte>, v: seq<byte>)
    requires At(s, i, u + v)
    ensures At(s, i, u) && At(s, i + |u|, v)
  {
    SliceSlice(s, i, i + |u| + |v|, 0, |u|);
    SliceSlice(s, i, i + |u| + |v|, |u|, |u| + |v|);
  }

  /** One printed byte is read back as that byte. */
  lemma {:induction false} ByteBack(s: seq<byte>, i: nat, c: byte, done: Name, cur: Label, out: nat)
    requires At(s, i, EscByte(c)) && |cur| < MAX_LABEL && out + 2 <= MAX_NAME
    ensures Scan(s, i, done, cur, out) == Scan(s, i + |EscByte(c)|, done, cur + [c], out + 1)
  {
    var e := EscByte(c);
    var w := s[i..i + |e|];
    assert forall k :: 0 <= k < |e| ==> s[i + k] == w[k];
    if !Special(c) && !(0x20 < c < 0x7F) {
      assert c == c / 100 * 100 + c / 10 % 10 * 10 + c % 10;
    }
    hide Scan;
    ScanByte(s, i, done, cur, out);
  }

  lemma {:induction false} ScanByte(s: seq<byte>, i: nat, done: Name, cur: Label, out: nat)
    requires i < |s| && s[i] != DOT && |cur| < MAX_LABEL && out + 2 <= MAX_NAME
    ensures var e := if s[i] == BACKSLASH then Escape(s, i + 1) else Some((s[i], 0));
      e.Some? ==> Scan(s, i, done, cur, out) == Scan(s, i + 1 + e.value.1, done, cur + [e.value.0], out + 1)
  {
  }

  lemma {:induction false} LabelBack(s: seq<byte>, i: nat, l: Label, done: Name, cur: Label, out: nat)
    requires At(s, i, EscLabel(l)) && |cur| + |l| <= MAX_LABEL && out + |l| + 1 <= MAX_NAME
    ensures Scan(s, i, done, cur, out) == Scan(s, i + |EscLabel(l)|, done, cur + l, out + |l|)
    decreases |l|
  {
    hide Scan, EscByte, At;
    if |l| > 0 {
      AtConcat(s, i, EscByte(l[0]), EscLabel(l[1..]));
      ByteBack(s, i, l[0], done, cur, out);
      LabelBack(s, i + |EscByte(l[0])|, l[1..], done, cur + [l[0]], out + 1);
      assert cur + [l[0]] + l[1..] == cur + l;
    } else {
      assert cur + l == cur;
    }
  }

  lemma {:induction false} NameBack(s: seq<byte>, i: nat, n: Name, done: Name, out: nat)
    requires |n| > 0 && (forall k :: 0 <= k < |n| ==> LabelOk(n[k])) && |done| + |n| <= MAX_LABELS
    requires At(s, i, EscName(n)) && i + |EscName(n)| == |s| && out + WireLen(n) <= MAX_NAME + 1
    ensures Scan(s, i, done, [], out) == Some(done + n)
    decreases |n|
  {
    hide Scan, EscLabel, At;
    var l, e := n[0], EscLabel(n[0]);
    assert LabelOk(l);
    AtConcat(s, i, e + [DOT], EscName(n[1..]));
    AtConcat(s, i, e, [DOT]);
    WirePos(n[1..]);
    LabelBack(s, i, l, done, [], out);
    assert [] + l == l;
    DotHere(s, i + |e|);
    if |n| == 1 {
      assert n == [l];
      ScanEnd(s, i + |e|, done, l, out + |l|);
    } else {
      ScanDot(s, i + |e|, done, l, out + |l|) by {
        WirePos(n[1..][1..]);
        assert LabelOk(n[1]);
      }
      NameBack(s, i + |e| + 1, n[1..], done + [l], out + |l| + 1);
      assert done + [l] + n[1..] == done + n;
    }
  }

  lemma {:induction false} WirePos(n: Name)
    ensures WireLen(n) >= 1 && (|n| > 0 ==> WireLen(n) >= 2 + |n[0]|)
  {
    if |n| > 0 {
      assert WireLen(n[1..]) >= 1;
    }
  }

  lemma {:induction false} DotHere(s: seq<byte>, i: nat)
    requires At(s, i, [DOT])
    ensures i < |s| && s[i] == DOT
  {
    assert s[i..i + 1][0] == s[i];
  }

  lemma {:induction false} ScanEnd(s: seq<byte>, i: nat, done: Name, l: Label, out: nat)
    requires i + 1 == |s| && s[i] == DOT && l != [] && |done| + 1 <= MAX_LABELS && out + 1 <= MAX_NAME
    ensures Scan(s, i, done, l, out) == Some(done + [l])
  {
  }

  lemma {:induction false} ScanDot(s: seq<byte>, i: nat, done: Name, l: Label, out: nat)
    requires i + 1 < |s| && s[i] == DOT && l != [] && |done| + 1 <= MAX_LABELS && out + 1 < MAX_NAME
    ensures Scan(s, i, done, l, out) == Scan(s, i + 1, done + [l], [], out + 1)
  {
  }

  /** Every name read back from its own text is that name. */
  lemma {:induction false} TextBack(n: Name)
    requires NameOk(n)
    ensures FromText(Text(n)) == Some(n)
  {
    hide Scan;
    if |n| > 0 {
      LabelCount(n);
      var s := Text(n);
      NotJustDot(n);
      assert s[0..|s|] == s;
      NameBack(s, 0, n, [], 1);
      assert [] + n == n;
    }
  }

  lemma {:induction false} NotJustDot(n: Name)
    requires |n| > 0 && LabelOk(n[0])
    ensures |EscName(n)| >= 2
  {
    assert |EscLabel(n[0])| >= 1;
  }

  // ---------------------------------------------------------------------------
  // What is read is a name
  // ---------------------------------------------------------------------------

  ghost predicate PartOk(done: Name, cur: Label, out: nat) {
    (forall k :: 0 <= k < |done| ==> LabelOk(done[k])) && |cur| <= MAX_LABEL && out == WireLen(done) + |cur|
  }

  lemma {:induction false} WireSnoc(n: Name, l: Label)
    ensures WireLen(n + [l]) == WireLen(n) + 1 + |l|
  {
    if |n| > 0 {
      assert (n + [l])[1..] == n[1..] + [l];
      WireSnoc(n[1..], l);
    } else {
      assert n + [l] == [l] && [l][1..] == [];
    }
  }

  lemma {:induction false} ScanSound(s: seq<byte>, i: nat, done: Name, cur: Label, out: nat)
    requires i <= |s| && PartOk(done, cur, out) && Scan(s, i, done, cur, out).Some?
    ensures var n := Scan(s, i, done, cur, out).value; NameOk(n) && n != [] && WireLen(n) <= out + 1 + (|s| - i)
    decreases |s| - i
  {
    hide Escape, WireLen;
    WireSnoc(done, cur);
    if i == |s| || (s[i] == DOT && i + 1 == |s|) {
      assert forall k :: 0 <= k < |done + [cur]| ==> LabelOk((done + [cur])[k]);
    } else if s[i] == DOT {
      ScanSound(s, i + 1, done + [cur], [], out + 1);
    } else {
      var e := if s[i] == BACKSLASH then Escape(s, i + 1) else Some((s[i], 0));
      EscapeLen(s, i + 1);
      ScanSound(s, i + 1 + e.value.1, done, cur + [e.value.0], out + 1);
    }
  }

  lemma {:induction false} EscapeLen(s: seq<byte>, i: nat)
    requires i <= |s|
    ensures Escape(s, i).Some? ==> i + Escape(s, i).value.1 <= |s|
  {
  }

  /** Text that reads as a name gives a valid one, whose wire form is at most two bytes longer. */
  lemma {:induction false} FromTextSound(s: seq<byte>)
    requires FromText(s).Some?
    ensures NameOk(FromText(s).value) && WireLen(FromText(s).value) <= |s| + 2
  {
    hide Scan;
    if s != [DOT] {
      assert PartOk([], [], 1);
      ScanSound(s, 0, [], [], 1);
    }
  }

  /** elpis_name_from_text: the loop. */
  method ReadText(s: seq<byte>) returns (r: Option<Name>)
    ensures r == FromText(s)
  {
    hide Escape;
    if s == [DOT] {
      return Some([]);
    }
    if s == [] {
      return None;
    }
    var i: nat, done: Name, cur: Label, out: nat := 0, [], [], 1;
    while i < |s|
      invariant i <= |s| && Scan(s, i, done, cur, out) == FromText(s)
      decreases |s| - i
    {
      var ch := s[i];
      i := i + 1;
      if ch == DOT {
        if cur == [] || |done| + 1 > MAX_LABELS {
          return None;
        }
        if i == |s| {
          break;
        }
        if out + 1 >= MAX_NAME {
          return None;
        }
        done, cur, out := done + [cur], [], out + 1;
        continue;
      }
      if ch == BACKSLASH {
        var e := Escape(s, i);
        if e.None? {
          return None;
        }
        ch := e.value.0;
        EscapeLen(s, i);
        i := i + e.value.1;
      }
      if |cur| >= MAX_LABEL || out + 2 > MAX_NAME {
        return None;
      }
      cur, out := cur + [ch], out + 1;
    }
    if cur == [] || out + 1 > MAX_NAME {
      return None;
    }
    return Some(done + [cur]);
  }
}
