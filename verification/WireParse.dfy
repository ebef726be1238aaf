/**
 Reading names and records out of a message (src/dns/name.c, src/dns/msg.c), compression
 pointers included, and what such a reading depends on.
 */
module WireParse {
  import opened Words
  import opened Names

  const HDR_LEN: nat := 12

  function Target(hi: byte, lo: byte): nat
    requires hi >= 0xC0
  {
    (hi - 0xC0) * 256 + lo
  }

  /**
   elpis_name_parse, from `off`, when pointers must aim below `limit` and `jumps` pointers,
   `out` bytes and `labels` labels are behind us.
   */
  function ParseName(msg: seq<byte>, off: nat, limit: nat, jumps: nat, out: nat, labels: nat): (r: Option<Name>)
    decreases limit, |msg| - off
  {
    if off >= |msg| then None
    else
      var c := msg[off];
      if c >= 0xC0 then
        if off + 1 >= |msg| || Target(c, msg[off + 1]) >= limit || jumps + 1 > MAX_LABELS then None
        else
          var t := Target(c, msg[off + 1]);
          ParseName(msg, t, t, jumps + 1, out, labels)
      else if c >= 0x40 then None
      else if c == 0 then (if out + 1 > MAX_NAME then None else Some([]))
      else if off + 1 + c > |msg| || out + 1 + c + 1 > MAX_NAME || labels + 1 > MAX_LABELS then None
      else
        match ParseName(msg, off + 1 + c, limit, jumps, out + 1 + c, labels + 1)
        case None => None
        case Some(n) => Some([msg[off + 1..off + 1 + c]] + n)
  }

  /** Where the name ends in place: past the root byte, or past the first pointer. */
  function NameEnd(msg: seq<byte>, off: nat): nat
    decreases |msg| - off
  {
    if off >= |msg| then off
    else if msg[off] >= 0xC0 then off + 2
    else if msg[off] == 0 then off + 1
    else NameEnd(msg, off + 1 + msg[off])
  }

  ghost function Joined(n: Name, r: Option<Name>): Option<Name> {
    match r
    case None => None
    case Some(m) => Some(n + m)
  }

  lemma {:induction false} JoinedStep(n: Name, l: Label, r: Option<Name>)
    ensures Joined(n, match r case None => None case Some(m) => Some([l] + m)) == Joined(n + [l], r)
    ensures Joined([], r) == r
  {
    if r.Some? {
      assert n + ([l] + r.value) == n + [l] + r.value;
      assert [] + r.value == r.value;
    }
  }

  /** The parsing loop. */
  method NameParse(msg: seq<byte>, start: nat) returns (r: Option<(Name, nat)>)
    ensures r.None? <==> ParseName(msg, start, start, 0, 0, 0).None?
    ensures r.Some? ==> ParseName(msg, start, start, 0, 0, 0) == Some(r.value.0) && r.value.1 == NameEnd(msg, start)
  {
    var off: nat, limit: nat, jumps: nat, out: nat := start, start, 0, 0;
    var n: Name := [];
    var end := 0;
    JoinedStep([], [], ParseName(msg, start, start, 0, 0, 0));
    while true
      invariant jumps <= MAX_LABELS && |n| <= MAX_LABELS
      invariant ParseName(msg, start, start, 0, 0, 0) == Joined(n, ParseName(msg, off, limit, jumps, out, |n|))
      invariant if end == 0 then NameEnd(msg, start) == NameEnd(msg, off) else end == NameEnd(msg, start)
      decreases limit, |msg| - off
    {
      if off >= |msg| {
        return None;
      }
      var c := msg[off];
      if c >= 0xC0 {
        if off + 1 >= |msg| {
          return None;
        }
        var t := Target(c, msg[off + 1]);
        if end == 0 {
          end := off + 2;
        }
        if t >= limit {
          return None;
        }
        jumps := jumps + 1;
        if jumps > MAX_LABELS {
          return None;
        }
        limit := t;
        off := t;
        continue;
      }
      if c >= 0x40 {
        return None;
      }
      if c == 0 {
        if out + 1 > MAX_NAME {
          return None;
        }
        if end == 0 {
          end := off + 1;
        }
        assert n + [] == n;
        return Some((n, end));
      }
      if off + 1 + c > |msg| || out + 1 + c + 1 > MAX_NAME || |n| + 1 > MAX_LABELS {
        return None;
      }
      var l := msg[off + 1..off + 1 + c];
      JoinedStep(n, l, ParseName(msg, off + 1 + c, limit, jumps, out + 1 + c, |n| + 1));
      n := n + [l];
      out := out + 1 + c;
      off := off + 1 + c;
    }
  }

  // ---------------------------------------------------------------------------
  // What a name's encoding is, and which bytes it consists of
  // ---------------------------------------------------------------------------

  /** The bytes names are made of: length bytes and labels, and pointers. */
  datatype Foot = Foot(lits: set<nat>, ptrs: set<nat>)

  ghost predicate Range(s: set<nat>, a: nat, b: nat) {
    forall i :: a <= i < b ==> i in s
  }

  ghost predicate Within(f: Foot, g: Foot) {
    f.lits <= g.lits && f.ptrs <= g.ptrs
  }

  /** msg' has the same bytes as msg wherever names are. */
  ghost predicate SameNames(msg: seq<byte>, f: Foot, msg': seq<byte>) {
    forall i :: (i in f.lits || i in f.ptrs) && i < |msg| ==> i < |msg'| && msg'[i] == msg[i]
  }

  /** The same up to ASCII case, with the pointers untouched. */
  ghost predicate SameNamesCi(msg: seq<byte>, f: Foot, msg': seq<byte>) {
    && (forall i :: i in f.lits && i < |msg| ==> i < |msg'| && Lower(msg'[i]) == Lower(msg[i]))
    && (forall i :: i in f.ptrs && i < |msg| ==> i < |msg'| && msg'[i] == msg[i])
  }

  /**
   Reading from `off` yields the labels n over at most j pointers, each aiming below where
   its stretch began (the first one below lim), and reads only the bytes in f.
   */
  ghost predicate Dec(msg: seq<byte>, f: Foot, off: nat, lim: nat, n: Name, j: nat)
    decreases j, |n|
  {
    && off < |msg|
    && (if msg[off] >= 0xC0 then
          && j > 0 && off + 1 < |msg| && off in f.ptrs && off + 1 in f.ptrs && Target(msg[off], msg[off + 1]) < lim
          && Dec(msg, f, Target(msg[off], msg[off + 1]), Target(msg[off], msg[off + 1]), n, j - 1)
        else if msg[off] == 0 then off in f.lits && n == []
        else
          && msg[off] < 0x40 && |n| > 0 && |n[0]| == msg[off] && off + 1 + |n[0]| <= |msg|
          && Range(f.lits, off, off + 1 + |n[0]|) && msg[off + 1..off + 1 + |n[0]|] == n[0]
          && Dec(msg, f, off + 1 + |n[0]|, lim, n[1..], j))
  }

  /** An encoding parses to its name, as long as the name and the pointer count are within the limits. */
  lemma {:induction false} DecParses(msg: seq<byte>, f: Foot, off: nat, lim: nat, n: Name, j: nat, jumps: nat,
                                     out: nat, labels: nat)
    requires Dec(msg, f, off, lim, n, j) && jumps + j <= MAX_LABELS
    requires out + WireLen(n) <= MAX_NAME && labels + |n| <= MAX_LABELS
    ensures ParseName(msg, off, lim, jumps, out, labels) == Some(n)
    decreases j, |n|
  {
    if msg[off] >= 0xC0 {
      var t := Target(msg[off], msg[off + 1]);
      DecParses(msg, f, t, t, n, j - 1, jumps + 1, out, labels);
    } else if msg[off] != 0 {
      DecParses(msg, f, off + 1 + |n[0]|, lim, n[1..], j, jumps, out + 1 + |n[0]|, labels + 1);
      assert [n[0]] + n[1..] == n;
      WireLenPos(n[1..]);
    }
  }

  lemma {:induction false} WireLenPos(n: Name)
    ensures WireLen(n) >= 1
  {
  }

  /** An encoding only depends on its own bytes. */
  lemma {:induction false} DecFrame(msg: seq<byte>, f: Foot, msg': seq<byte>, g: Foot, off: nat, lim: nat, n: Name,
                                    j: nat)
    requires Dec(msg, f, off, lim, n, j) && Within(f, g) && SameNames(msg, f, msg')
    ensures Dec(msg', g, off, lim, n, j) && NameEnd(msg', off) == NameEnd(msg, off)
    decreases j, |n|
  {
    if msg[off] >= 0xC0 {
      var t := Target(msg[off], msg[off + 1]);
      DecFrame(msg, f, msg', g, t, t, n, j - 1);
    } else if msg[off] != 0 {
      var e := off + 1 + |n[0]|;
      DecFrame(msg, f, msg', g, e, lim, n[1..], j);
      assert e - 1 in f.lits;
      assert msg'[off + 1..e] == msg[off + 1..e];
    }
  }

  /** More pointers allowed, or a later limit, changes nothing. */
  lemma {:induction false} DecWeaken(msg: seq<byte>, f: Foot, off: nat, lim: nat, lim': nat, n: Name, j: nat, j': nat)
    requires Dec(msg, f, off, lim, n, j) && j <= j' && lim <= lim'
    ensures Dec(msg, f, off, lim', n, j')
    decreases j, |n|
  {
    if msg[off] >= 0xC0 {
      var t := Target(msg[off], msg[off + 1]);
      DecWeaken(msg, f, t, t, t, n, j - 1, j' - 1);
    } else if msg[off] != 0 {
      DecWeaken(msg, f, off + 1 + |n[0]|, lim, lim', n[1..], j, j');
    }
  }

  /**
   Changing the case of an encoding's label bytes changes the case of the name and nothing
   else: length bytes are never letters.
   */
  lemma {:induction false} DecFold(msg: seq<byte>, f: Foot, msg': seq<byte>, off: nat, lim: nat, n: Name, j: nat)
    returns (n': Name)
    requires Dec(msg, f, off, lim, n, j) && SameNamesCi(msg, f, msg')
    ensures Dec(msg', f, off, lim, n', j) && Canon(n') == Canon(n) && NameEnd(msg', off) == NameEnd(msg, off)
    decreases j, |n|
  {
    if msg[off] >= 0xC0 {
      var t := Target(msg[off], msg[off + 1]);
      n' := DecFold(msg, f, msg', t, t, n, j - 1);
    } else if msg[off] == 0 {
      n' := [];
    } else {
      var e := off + 1 + |n[0]|;
      assert off in f.lits && e - 1 in f.lits;
      var m := DecFold(msg, f, msg', e, lim, n[1..], j);
      n' := FoldLabel(msg, f, msg', off, lim, n, j, m);
    }
  }

  lemma {:induction false} FoldLabel(msg: seq<byte>, f: Foot, msg': seq<byte>, off: nat, lim: nat, n: Name, j: nat,
                                     m: Name)
    returns (n': Name)
    requires off < |msg| && 0 < msg[off] < 0x40 && |n| > 0 && |n[0]| == msg[off] && off + 1 + |n[0]| <= |msg|
    requires Range(f.lits, off, off + 1 + |n[0]|) && msg[off + 1..off + 1 + |n[0]|] == n[0] && SameNamesCi(msg, f, msg')
    requires Dec(msg', f, off + 1 + |n[0]|, lim, m, j) && Canon(m) == Canon(n[1..])
    requires NameEnd(msg', off + 1 + |n[0]|) == NameEnd(msg, off + 1 + |n[0]|)
    ensures Dec(msg', f, off, lim, n', j) && Canon(n') == Canon(n) && NameEnd(msg', off) == NameEnd(msg, off)
  {
    hide Dec, Canon, Fold;
    var e := off + 1 + |n[0]|;
    assert off in f.lits && e - 1 in f.lits;
    var l := msg'[off + 1..e];
    FoldEqual(l, n[0]) by {
      forall i | 0 <= i < |l|
        ensures Lower(l[i]) == Lower(n[0][i])
      {
        assert off + 1 + i in f.lits && n[0][i] == msg[off + 1 + i];
      }
    }
    n' := [l] + m;
    assert msg'[off..e] == [LenByte(l)] + l;
    DecLabel(msg', f, off, lim, l, m, j);
    CanonCons(l, m);
    CanonCons(n[0], n[1..]);
    assert [n[0]] + n[1..] == n;
  }

  lemma {:induction false} CanonCons(l: Label, n: Name)
    ensures Canon([l] + n) == [Fold(l)] + Canon(n)
  {
  }

  lemma {:induction false} FoldEqual(a: seq<byte>, b: seq<byte>)
    requires |a| == |b| && forall i :: 0 <= i < |a| ==> Lower(a[i]) == Lower(b[i])
    ensures Fold(a) == Fold(b)
  {
  }

  // ---------------------------------------------------------------------------
  // Encodings that start with literal labels
  // ---------------------------------------------------------------------------

  /** The literal bytes of the first i labels. */
  function Lits(n: Name, i: nat): (w: seq<byte>)
    requires i <= |n|
  {
    if i == 0 then [] else [LenByte(n[0])] + n[0] + Lits(n[1..], i - 1)
  }

  function LenByte(l: Label): byte {
    |l| % 256
  }

  lemma {:induction false} LitsAll(n: Name)
    requires forall k :: 0 <= k < |n| ==> LabelOk(n[k])
    ensures Lits(n, |n|) + [0] == Wire(n)
  {
    if |n| > 0 {
      LitsAll(n[1..]);
    }
  }

  lemma {:induction false} LitsLen(n: Name, i: nat)
    requires i <= |n|
    ensures |Lits(n, i)| + WireLen(n[i..]) == WireLen(n)
  {
    if i > 0 {
      LitsLen(n[1..], i - 1);
      assert n[1..][i - 1..] == n[i..];
    } else {
      assert n[0..] == n;
    }
  }

  /** msg holds the bytes w at off. */
  ghost predicate Holds(msg: seq<byte>, off: nat, w: seq<byte>) {
    off + |w| <= |msg| && msg[off..off + |w|] == w
  }

  lemma {:induction false} HoldsConcat(msg: seq<byte>, off: nat, u: seq<byte>, v: seq<byte>)
    ensures Holds(msg, off, u + v) <==> Holds(msg, off, u) && Holds(msg, off + |u|, v)
  {
    if Holds(msg, off, u + v) {
      SliceSlice(msg, off, off + |u| + |v|, 0, |u|);
      SliceSlice(msg, off, off + |u| + |v|, |u|, |u| + |v|);
    }
  }

  /** A label in front of an encoding makes an encoding. */
  lemma {:induction false} DecLabel(msg: seq<byte>, f: Foot, off: nat, lim: nat, l: Label, rest: Name, j: nat)
    requires LabelOk(l) && Holds(msg, off, [LenByte(l)] + l)
    requires Range(f.lits, off, off + 1 + |l|)
    requires Dec(msg, f, off + 1 + |l|, lim, rest, j)
    ensures Dec(msg, f, off, lim, [l] + rest, j)
    ensures NameEnd(msg, off) == NameEnd(msg, off + 1 + |l|)
  {
    HoldsConcat(msg, off, [LenByte(l)], l);
    assert msg[off] == msg[off..off + 1][0];
    assert ([l] + rest)[1..] == rest;
  }

  /** A pointer to an encoding, or the root byte, is an encoding. */
  lemma {:induction false} DecPtr(msg: seq<byte>, f: Foot, off: nat, lim: nat, t: nat, n: Name, j: nat)
    requires off + 1 < |msg| && msg[off] >= 0xC0 && Target(msg[off], msg[off + 1]) == t < lim
    requires off in f.ptrs && off + 1 in f.ptrs && Dec(msg, f, t, t, n, j)
    ensures Dec(msg, f, off, lim, n, j + 1) && NameEnd(msg, off) == off + 2
  {
  }

  lemma {:induction false} DecRoot(msg: seq<byte>, f: Foot, off: nat, lim: nat, j: nat)
    requires off < |msg| && msg[off] == 0 && off in f.lits
    ensures Dec(msg, f, off, lim, [], j) && NameEnd(msg, off) == off + 1
  {
  }

  lemma {:induction false} LitsHead(n: Name, i: nat)
    requires 1 <= i <= |n|
    ensures Lits(n, i) == ([LenByte(n[0])] + n[0]) + Lits(n[1..], i - 1)
  {
  }

  /** Literal labels followed by an encoding of the rest make an encoding of the whole. */
  lemma {:induction false} DecLits(msg: seq<byte>, f: Foot, off: nat, lim: nat, n: Name, i: nat, rest: Name, j: nat)
    requires i <= |n| && forall k :: 0 <= k < |n| ==> LabelOk(n[k])
    requires Holds(msg, off, Lits(n, i)) && Range(f.lits, off, off + |Lits(n, i)|)
    requires Dec(msg, f, off + |Lits(n, i)|, lim, rest, j)
    ensures Dec(msg, f, off, lim, n[..i] + rest, j)
    ensures NameEnd(msg, off) == NameEnd(msg, off + |Lits(n, i)|)
    decreases i
  {
    hide Dec, NameEnd, Holds;
    if i == 0 {
      assert n[..0] + rest == rest;
    } else {
      var t, w := n[1..], [LenByte(n[0])] + n[0];
      LitsHead(n, i);
      hide Lits;
      HoldsConcat(msg, off, w, Lits(t, i - 1));
      DecLits(msg, f, off + |w|, lim, t, i - 1, rest, j);
      DecLabel(msg, f, off, lim, n[0], t[..i - 1] + rest, j);
      assert n[..i] + rest == [n[0]] + (t[..i - 1] + rest);
    }
  }

  lemma {:induction false} LitsSplit(n: Name, i: nat, k: nat)
    requires k <= i <= |n|
    ensures Lits(n, i) == Lits(n, k) + Lits(n[k..], i - k)
    decreases k
  {
    if k == 0 {
      assert n[0..] == n;
    } else {
      LitsSplit(n[1..], i - 1, k - 1);
      LitsHead(n, i);
      LitsHead(n, k);
      hide Lits;
      assert n[1..][k - 1..] == n[k..];
    }
  }
}
