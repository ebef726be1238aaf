/**
 The message builder (src/dns/msg.c): a byte buffer written left to right, a table of names
 already in it that later names may point at, and marks to roll back to.
 */
module Builder {
  import opened Words
  import opened Bytes
  import opened Names
  import opened WireParse

  const CTAB: nat := 64
  const PTR_LIMIT: nat := 0x4000

  datatype CSlot = CSlot(off: nat, name: Name)

  /** A name put into the message at [off, end). */
  datatype Written = Written(off: nat, name: Name, end: nat)

  datatype BldMark = BldMark(len: nat, nctab: nat, nttl: nat, counts: seq<nat>)

  /** What a builder holds: the message so far, which bytes of it names are made of, the table. */
  datatype Snap = Snap(msg: seq<byte>, foot: Foot, ctab: seq<CSlot>, written: set<Written>)

  // ---------------------------------------------------------------------------
  // The invariant
  // ---------------------------------------------------------------------------

  /** Reading at off gives n up to case, over at most j pointers. */
  ghost predicate DecTo(msg: seq<byte>, f: Foot, off: nat, n: Name, j: nat) {
    exists d :: Dec(msg, f, off, off, d, j) && Canon(d) == Canon(n)
  }

  ghost predicate EntryOk(msg: seq<byte>, f: Foot, e: CSlot) {
    NameOk(e.name) && |e.name| > 0 && e.off < PTR_LIMIT && e.off < |msg| && DecTo(msg, f, e.off, e.name, |e.name| - 1)
  }

  ghost predicate WrittenOk(msg: seq<byte>, f: Foot, w: Written) {
    && NameOk(w.name) && w.off < w.end <= |msg| && NameEnd(msg, w.off) == w.end
    && DecTo(msg, f, w.off, w.name, |w.name|)
  }

  ghost predicate FootIn(f: Foot, n: nat) {
    forall i :: i in f.lits || i in f.ptrs ==> HDR_LEN <= i < n
  }

  ghost predicate SnapOk(s: Snap) {
    && FootIn(s.foot, |s.msg|) && |s.ctab| <= CTAB
    && (forall k :: 0 <= k < |s.ctab| ==> EntryOk(s.msg, s.foot, s.ctab[k]))
    && (forall w :: w in s.written ==> WrittenOk(s.msg, s.foot, w))
  }

  ghost function Span(a: nat, b: nat): (r: set<nat>)
    ensures forall i :: i in r <==> a <= i < b
    decreases b - a
  {
    if a < b then {a} + Span(a + 1, b) else {}
  }

  ghost function Cut(f: Foot, n: nat): Foot {
    Foot(set i | i in f.lits && i < n, set i | i in f.ptrs && i < n)
  }

  ghost function Before(w: set<Written>, n: nat): set<Written> {
    set x | x in w && x.end <= n
  }

  /** The snapshot as it was when the message had n bytes and the table k entries. */
  ghost function Back(s: Snap, n: nat, k: nat): Snap
    requires n <= |s.msg| && k <= |s.ctab|
  {
    Snap(s.msg[..n], Cut(s.foot, n), s.ctab[..k], Before(s.written, n))
  }

  ghost predicate MarkOk(s: Snap, n: nat, k: nat) {
    HDR_LEN <= n <= |s.msg| && k <= |s.ctab| && SnapOk(Back(s, n, k))
  }

  /** s' is s with more behind it; bytes of s that no name is made of may have been patched. */
  ghost predicate Grew(s: Snap, s': Snap) {
    && |s.msg| <= |s'.msg| && s.ctab <= s'.ctab
    && SameNames(s.msg, s.foot, s'.msg)
    && Cut(s'.foot, |s.msg|) == s.foot
    && Before(s'.written, |s.msg|) == s.written
  }

  // ---------------------------------------------------------------------------
  // What keeps the invariant
  // ---------------------------------------------------------------------------

  lemma {:induction false} DecToFrame(msg: seq<byte>, f: Foot, msg': seq<byte>, g: Foot, off: nat, n: Name, j: nat)
    requires DecTo(msg, f, off, n, j) && Within(f, g) && SameNames(msg, f, msg')
    ensures DecTo(msg', g, off, n, j) && NameEnd(msg', off) == NameEnd(msg, off) && off < |msg'|
  {
    var d :| Dec(msg, f, off, off, d, j) && Canon(d) == Canon(n);
    DecFrame(msg, f, msg', g, off, off, d, j);
  }

  /** More bytes, more of them names, and patches outside names: what was decodable stays so. */
  lemma {:induction false} Framed(s: Snap, msg': seq<byte>, g: Foot)
    requires SnapOk(s) && Within(s.foot, g) && SameNames(s.msg, s.foot, msg') && |s.msg| <= |msg'|
    ensures forall k :: 0 <= k < |s.ctab| ==> EntryOk(msg', g, s.ctab[k])
    ensures forall w :: w in s.written ==> WrittenOk(msg', g, w)
  {
    hide Dec, NameEnd, Canon, NameOk, DecTo, SameNames;
    forall k | 0 <= k < |s.ctab|
      ensures EntryOk(msg', g, s.ctab[k])
    {
      var e := s.ctab[k];
      DecToFrame(s.msg, s.foot, msg', g, e.off, e.name, |e.name| - 1);
    }
    forall w | w in s.written
      ensures WrittenOk(msg', g, w)
    {
      DecToFrame(s.msg, s.foot, msg', g, w.off, w.name, |w.name|);
    }
  }

  /** Whatever is appended later, a mark stays good: rolling back to it gives a sound builder. */
  lemma {:induction false} MarkKept(s: Snap, s': Snap, n: nat, k: nat)
    requires MarkOk(s, n, k) && Grew(s, s')
    ensures MarkOk(s', n, k)
  {
    hide WrittenOk, EntryOk;
    var b := Back(s, n, k);
    assert Cut(s'.foot, n) == b.foot by {
      assert Cut(Cut(s'.foot, |s.msg|), n) == Cut(s'.foot, n);
    }
    assert Before(s'.written, n) == b.written by {
      assert Before(Before(s'.written, |s.msg|), n) == Before(s'.written, n);
    }
    assert s'.ctab[..k] == s.ctab[..k];
    assert SameNames(b.msg, b.foot, s'.msg[..n]);
    Framed(b, s'.msg[..n], b.foot);
  }

  lemma {:induction false} MarkNow(s: Snap)
    requires SnapOk(s) && HDR_LEN <= |s.msg|
    ensures MarkOk(s, |s.msg|, |s.ctab|) && Back(s, |s.msg|, |s.ctab|) == s
  {
    hide EntryOk, DecTo, NameEnd;
    assert s.msg[..|s.msg|] == s.msg && s.ctab[..|s.ctab|] == s.ctab;
    assert Cut(s.foot, |s.msg|) == s.foot;
    assert Before(s.written, |s.msg|) == s.written;
  }

  /** After a rollback, marks no later than the one rolled back to are still good. */
  lemma {:induction false} MarkBack(s: Snap, n: nat, k: nat, n': nat, k': nat)
    requires MarkOk(s, n, k) && MarkOk(s, n', k') && n' <= n && k' <= k
    ensures MarkOk(Back(s, n, k), n', k')
  {
    hide EntryOk, WrittenOk;
    var b := Back(s, n, k);
    assert b.msg[..n'] == s.msg[..n'] && b.ctab[..k'] == s.ctab[..k'];
    assert Cut(b.foot, n') == Cut(s.foot, n');
    assert Before(b.written, n') == Before(s.written, n');
  }

  // ---------------------------------------------------------------------------
  // Appending
  // ---------------------------------------------------------------------------

  /** Bytes that are no part of a name. */
  lemma {:induction false} BytesOk(s: Snap, p: seq<byte>)
    requires SnapOk(s)
    ensures SnapOk(s.(msg := s.msg + p)) && Grew(s, s.(msg := s.msg + p))
  {
    hide EntryOk, WrittenOk;
    Framed(s, s.msg + p, s.foot);
    MarkCuts(s);
  }

  lemma {:induction false} MarkCuts(s: Snap)
    requires SnapOk(s)
    ensures Cut(s.foot, |s.msg|) == s.foot && Before(s.written, |s.msg|) == s.written
  {
    hide EntryOk, DecTo, NameEnd;
  }

  /** Overwriting bytes that are no part of a name. */
  lemma {:induction false} PatchOk(s: Snap, msg': seq<byte>)
    requires SnapOk(s) && |msg'| == |s.msg| && SameNames(s.msg, s.foot, msg')
    ensures SnapOk(s.(msg := msg')) && Grew(s, s.(msg := msg'))
  {
    hide EntryOk, WrittenOk;
    Framed(s, msg', s.foot);
    MarkCuts(s);
  }

  function Hi(t: nat): byte
    requires t < PTR_LIMIT
  {
    0xC0 + t / 256
  }

  function Lo(t: nat): byte {
    t % 256
  }

  /** The bytes of a name whose first i labels are literal, the rest a pointer to t, or the root. */
  function Encoded(n: Name, i: nat, t: nat): seq<byte>
    requires i <= |n| && t < PTR_LIMIT
  {
    if i < |n| then Lits(n, i) + [Hi(t), Lo(t)] else Lits(n, i) + [0]
  }

  ghost function EncodedFoot(f: Foot, start: nat, n: Name, i: nat): Foot
    requires i <= |n|
  {
    var e := start + |Lits(n, i)|;
    if i < |n| then Foot(f.lits + Span(start, e), f.ptrs + {e, e + 1})
    else Foot(f.lits + Span(start, e + 1), f.ptrs)
  }

  /** The snapshot after such a name has been appended. */
  ghost function WithName(s: Snap, n: Name, i: nat, t: nat): Snap
    requires i <= |n| && t < PTR_LIMIT
  {
    var m := s.msg + Encoded(n, i, t);
    s.(msg := m, foot := EncodedFoot(s.foot, |s.msg|, n, i), written := s.written + {Written(|s.msg|, n, |m|)})
  }

  /** Target t holds the part of n that is not written out. */
  ghost predicate Points(s: Snap, n: Name, i: nat, t: nat)
    requires i <= |n|
  {
    i < |n| ==> t < |s.msg| && DecTo(s.msg, s.foot, t, n[i..], |n| - i - 1)
  }

  lemma {:induction false} TargetSplit(t: nat)
    requires t < PTR_LIMIT
    ensures Hi(t) >= 0xC0 && Target(Hi(t), Lo(t)) == t
  {
  }

  lemma {:induction false} Extended(s: Snap, n: Name, i: nat, t: nat)
    requires i <= |n| && t < PTR_LIMIT
    ensures var s' := WithName(s, n, i, t); var e := |s.msg| + |Lits(n, i)|;
      && Within(s.foot, s'.foot) && SameNames(s.msg, s.foot, s'.msg)
      && (if i < |n| then |s'.msg| == e + 2 && s'.msg[e] == Hi(t) && s'.msg[e + 1] == Lo(t) && e in s'.foot.ptrs &&
          e + 1 in s'.foot.ptrs
          else |s'.msg| == e + 1 && s'.msg[e] == 0 && e in s'.foot.lits)
  {
    hide Lits, Hi, Lo;
  }

  /** What stands behind the literal labels decodes to the rest of the name. */
  lemma {:induction false} TailDecodes(s: Snap, n: Name, i: nat, t: nat) returns (d: Name)
    requires SnapOk(s) && i <= |n| && t < PTR_LIMIT && Points(s, n, i, t)
    ensures var s' := WithName(s, n, i, t); var e := |s.msg| + |Lits(n, i)|;
      Dec(s'.msg, s'.foot, e, |s.msg|, d, |n| - i) && Canon(d) == Canon(n[i..]) && NameEnd(s'.msg, e) == |s'.msg|
  {
    hide Dec, NameEnd, Lits, Canon, NameOk, SnapOk, WithName, SameNames, Within, Hi, Lo, Target;
    var s' := WithName(s, n, i, t);
    var e := |s.msg| + |Lits(n, i)|;
    Extended(s, n, i, t);
    if i < |n| {
      d :| Dec(s.msg, s.foot, t, t, d, |n| - i - 1) && Canon(d) == Canon(n[i..]);
      DecFrame(s.msg, s.foot, s'.msg, s'.foot, t, t, d, |n| - i - 1);
      TargetSplit(t);
      DecPtr(s'.msg, s'.foot, e, |s.msg|, t, d, |n| - i - 1);
    } else {
      d := [];
      assert n[i..] == [];
      DecRoot(s'.msg, s'.foot, e, |s.msg|, 0);
    }
  }

  lemma {:induction false} CanonConcat(a: Name, b: Name)
    ensures Canon(a + b) == Canon(a) + Canon(b)
  {
  }

  /** Each suffix of the new name decodes where it stands. */
  lemma {:induction false} SuffixDecodes(s: Snap, n: Name, i: nat, t: nat, p: nat)
    requires SnapOk(s) && NameOk(n) && p <= i <= |n| && t < PTR_LIMIT && Points(s, n, i, t)
    ensures var s' := WithName(s, n, i, t); var o := |s.msg| + |Lits(n, p)|;
      DecTo(s'.msg, s'.foot, o, n[p..], |n| - i) && NameEnd(s'.msg, o) == |s'.msg| && o < |s'.msg|
  {
    hide Dec, NameEnd, Lits, Canon, Holds, SnapOk, Points, WireLen;
    var s' := WithName(s, n, i, t);
    var o, e, l := |s.msg| + |Lits(n, p)|, |s.msg| + |Lits(n, i)|, Lits(n[p..], i - p);
    LitsSplit(n, i, p);
    assert Holds(s'.msg, o, l) by {
      LitsHeld(s.msg, Lits(n, p), l, s'.msg);
    }
    var d := TailDecodes(s, n, i, t);
    DecLits(s'.msg, s'.foot, o, |s.msg|, n[p..], i - p, d, |n| - i);
    DecWeaken(s'.msg, s'.foot, o, |s.msg|, o, n[p..][..i - p] + d, |n| - i, |n| - i);
    CanonConcat(n[p..][..i - p], d);
    CanonConcat(n[p..][..i - p], n[i..]);
    assert n[p..][..i - p] + n[i..] == n[p..];
  }

  lemma {:induction false} LitsHeld(msg: seq<byte>, u: seq<byte>, v: seq<byte>, msg': seq<byte>)
    requires msg + (u + v) <= msg'
    ensures Holds(msg', |msg| + |u|, v)
  {
  }

  /** Appending a name keeps the invariant, and the name parses back to itself up to case. */
  lemma {:induction false} NameOnWire(s: Snap, n: Name, i: nat, t: nat)
    requires SnapOk(s) && NameOk(n) && HDR_LEN <= |s.msg| && i <= |n| && t < PTR_LIMIT && Points(s, n, i, t)
    ensures SnapOk(WithName(s, n, i, t)) && Grew(s, WithName(s, n, i, t))
  {
    hide EntryOk, DecTo, NameEnd, Lits, Points, Canon, NameOk, Hi, Lo;
    var s' := WithName(s, n, i, t);
    Framed(s, s'.msg, s'.foot);
    SuffixDecodes(s, n, i, t, 0);
    assert n[0..] == n && |Lits(n, 0)| == 0 by {
      LitsNone(n);
    }
    assert WrittenOk(s'.msg, s'.foot, Written(|s.msg|, n, |s'.msg|)) by {
      DecToMore(s'.msg, s'.foot, |s.msg|, n, |n| - i, |n|);
    }
    assert Cut(s'.foot, |s.msg|) == s.foot;
    MarkCuts(s);
    assert Before(s'.written, |s.msg|) == s.written;
  }

  lemma {:induction false} LitsNone(n: Name)
    ensures Lits(n, 0) == []
  {
  }

  lemma {:induction false} DecToMore(msg: seq<byte>, f: Foot, off: nat, n: Name, j: nat, j': nat)
    requires DecTo(msg, f, off, n, j) && j <= j'
    ensures DecTo(msg, f, off, n, j')
  {
    var d :| Dec(msg, f, off, off, d, j) && Canon(d) == Canon(n);
    DecWeaken(msg, f, off, off, off, d, j, j');
  }

  /** A sound decoding is what the parser returns. */
  lemma {:induction false} DecToParses(msg: seq<byte>, f: Foot, off: nat, n: Name, j: nat) returns (d: Name)
    requires DecTo(msg, f, off, n, j) && NameOk(n) && j <= |n|
    ensures ParseName(msg, off, off, 0, 0, 0) == Some(d) && Canon(d) == Canon(n)
  {
    d :| Dec(msg, f, off, off, d, j) && Canon(d) == Canon(n);
    assert NameOk(d) by {
      CanonSameOk(n, d);
    }
    LabelCount(d);
    LabelCount(n);
    DecParses(msg, f, off, off, d, j, 0, 0, 0);
  }

  lemma {:induction false} CanonSameOk(n: Name, d: Name)
    requires NameOk(n) && Canon(n) == Canon(d)
    ensures NameOk(d) && |d| == |n|
  {
    CanonSameLen(n, d);
    assert |n| == |d|;
    forall k | 0 <= k < |d|
      ensures LabelOk(d[k])
    {
      assert Canon(n)[k] == Canon(d)[k] && LabelOk(n[k]);
    }
  }

  lemma {:induction false} CanonSameLen(n: Name, d: Name)
    requires Canon(n) == Canon(d)
    ensures |n| == |d| && WireLen(n) == WireLen(d)
  {
    assert |n| == |d|;
    if |n| > 0 {
      CanonTail(n, 1);
      CanonTail(d, 1);
      assert Canon(n)[0] == Canon(d)[0];
      CanonSameLen(n[1..], d[1..]);
    }
  }

  /** The table may take any suffix whose first label was written out. */
  lemma {:induction false} EntryFits(s: Snap, n: Name, i: nat, t: nat, p: nat)
    requires SnapOk(s) && NameOk(n) && p < i <= |n| && t < PTR_LIMIT && Points(s, n, i, t)
    requires |s.msg| + |Lits(n, p)| < PTR_LIMIT
    ensures EntryOk(WithName(s, n, i, t).msg, WithName(s, n, i, t).foot, CSlot(|s.msg| + |Lits(n, p)|, n[p..]))
  {
    hide DecTo, NameEnd, Lits, Points, Canon, SnapOk, WithName;
    SuffixDecodes(s, n, i, t, p);
    SuffixOk(n, p);
    var s' := WithName(s, n, i, t);
    DecToMore(s'.msg, s'.foot, |s.msg| + |Lits(n, p)|, n[p..], |n| - i, |n| - p - 1);
  }

  // ---------------------------------------------------------------------------
  // Which suffix a name is compressed at
  // ---------------------------------------------------------------------------

  ghost predicate Listed(ctab: seq<CSlot>, n: Name) {
    exists k :: 0 <= k < |ctab| && Canon(ctab[k].name) == Canon(n)
  }

  /** The first label, from i on, at which the rest of n is in the table; |n| when there is none. */
  ghost function FirstHit(ctab: seq<CSlot>, n: Name, i: nat): (r: nat)
    requires i <= |n|
    ensures i <= r <= |n|
    decreases |n| - i
  {
    if i == |n| || Listed(ctab, n[i..]) then i else FirstHit(ctab, n, i + 1)
  }

  /** Bytes elpis_bld_name takes for n. */
  ghost function NameCost(ctab: seq<CSlot>, n: Name): nat {
    var i := FirstHit(ctab, n, 0);
    |Lits(n, i)| + if i < |n| then 2 else 1
  }

  lemma {:induction false} LitsGrow(n: Name, i: nat, k: nat)
    requires i <= k <= |n|
    ensures |Lits(n, i)| + (k - i) <= |Lits(n, k)|
    decreases k
  {
    if i > 0 {
      LitsGrow(n[1..], i - 1, k - 1);
    } else if k > 0 {
      LitsGrow(n[1..], 0, k - 1);
    }
  }

  lemma {:induction false} HitFirst(ctab: seq<CSlot>, n: Name, i: nat, k: nat)
    requires i <= k < |n| && Listed(ctab, n[k..])
    ensures FirstHit(ctab, n, i) <= k
    decreases k - i
  {
    if i < k {
      HitFirst(ctab, n, i + 1, k);
    }
  }

  /** No other suffix in the table, and not writing the name out either, would be shorter. */
  lemma {:induction false} CostLeast(ctab: seq<CSlot>, n: Name, k: nat)
    requires NameOk(n) && k < |n|
    ensures Listed(ctab, n[k..]) ==> NameCost(ctab, n) <= |Lits(n, k)| + 2
  {
    hide Lits, Listed, FirstHit, Canon;
    var i := FirstHit(ctab, n, 0);
    if Listed(ctab, n[k..]) {
      HitFirst(ctab, n, 0, k);
      LitsGrow(n, i, k);
    }
  }

  lemma {:induction false} CostWithin(ctab: seq<CSlot>, n: Name)
    ensures NameCost(ctab, n) <= WireLen(n)
  {
    hide Lits, Listed, FirstHit, Canon;
    LitsLen(n, |n|);
    assert n[|n|..] == [];
    LitsGrow(n, FirstHit(ctab, n, 0), |n|);
  }

  // ---------------------------------------------------------------------------
  // The builder
  // ---------------------------------------------------------------------------

  class Bld {
    const buf: array<byte>
    const compress: bool
    const ttlCap: nat
    var len: nat
    var overflow: bool
    var counts: seq<nat>
    var ctab: seq<CSlot>
    var ttlOff: seq<nat>
    var ttlVal: seq<nat>
    ghost var foot: Foot
    ghost var written: set<Written>

    ghost function State(): Snap
      requires len <= buf.Length
      reads this, buf
    {
      Snap(buf[..len], foot, ctab, written)
    }

    ghost predicate Valid()
      reads this, buf
    {
      && len <= buf.Length && |counts| == 4 && |ttlOff| == |ttlVal|
      && SnapOk(State())
    }

    constructor (cap: nat, comp: bool, ttls: nat)
      ensures Valid() && fresh(buf) && buf.Length == cap && compress == comp && ttlCap == ttls
      ensures State() == Snap([], Foot({}, {}), [], {}) && counts == [0, 0, 0, 0] && !overflow && ttlOff == []
    {
      buf := new byte[cap](i => 0);
      compress, ttlCap := comp, ttls;
      len, overflow, counts, ctab, ttlOff, ttlVal := 0, false, [0, 0, 0, 0], [], [], [];
      foot, written := Foot({}, {}), {};
    }

    /** elpis_bld_bytes, also the shape of the fixed-width writers. */
    method Bytes(p: seq<byte>) returns (ok: bool)
      requires Valid()
      modifies this`len, this`overflow, buf
      ensures Valid() && ok == (old(len) + |p| <= buf.Length)
      ensures ok ==> overflow == old(overflow) && State() == old(State()).(msg := old(State()).msg + p)
      ensures !ok ==> overflow && State() == old(State())
      ensures Grew(old(State()), State())
    {
      hide SnapOk, Grew;
      ghost var s := State();
      if len + |p| > buf.Length {
        overflow := true;
        BytesOk(s, []);
        assert s.msg + [] == s.msg;
        return false;
      }
      forall i | 0 <= i < |p| {
        buf[len + i] := p[i];
      }
      len := len + |p|;
      assert buf[..len] == s.msg + p;
      BytesOk(s, p);
      return true;
    }

    /** ctab_find: the first entry that is n up to case. */
    method CtabFind(n: Name) returns (r: Option<nat>)
      requires Valid() && NameOk(n)
      ensures r.None? <==> !Listed(ctab, n)
      ensures r.Some? ==> exists k :: 0 <= k < |ctab| && ctab[k].off == r.value && Canon(ctab[k].name) == Canon(n)
    {
      hide Canon, WireLen, NameEnd, DecTo;
      var w := Wire(n);
      for k := 0 to |ctab|
        invariant forall m :: 0 <= m < k ==> Canon(ctab[m].name) != Canon(n)
      {
        assert EntryOk(State().msg, foot, ctab[k]);
        WireEqIff(ctab[k].name, n);
        if EqCi(Wire(ctab[k].name), w) {
          return Some(ctab[k].off);
        }
      }
      return None;
    }

    /** Writes a name's bytes: i literal labels, then a pointer to t or the root byte. */
    method Emit(n: Name, i: nat, t: nat) returns (ok: bool)
      requires Valid() && NameOk(n) && HDR_LEN <= len && i <= |n| && t < PTR_LIMIT && Points(State(), n, i, t)
      modifies this`len, this`overflow, this`foot, this`written, buf
      ensures Valid() && ok == (old(len) + |Encoded(n, i, t)| <= buf.Length)
      ensures ok ==> overflow == old(overflow) && State() == WithName(old(State()), n, i, t)
      ensures !ok ==> overflow && State() == old(State())
      ensures Grew(old(State()), State())
    {
      hide SnapOk, Grew, Points, Encoded, EncodedFoot, NameOk;
      ghost var s := State();
      ok := Bytes(Encoded(n, i, t));
      if ok {
        NameOnWire(s, n, i, t);
        foot, written := WithName(s, n, i, t).foot, WithName(s, n, i, t).written;
      }
    }

    /** Registers the first i suffixes of a name at start, while there is room and reach. */
    method Register(n: Name, i: nat, start: nat)
      requires Valid() && i <= |n|
      requires forall p :: 0 <= p < i && start + |Lits(n, p)| < PTR_LIMIT ==>
        EntryOk(State().msg, foot, CSlot(start + |Lits(n, p)|, n[p..]))
      modifies this`ctab
      ensures Valid() && State() == old(State()).(ctab := ctab) && old(ctab) <= ctab
    {
      hide EntryOk, WrittenOk, FootIn;
      var o, p := start, 0;
      LitsNone(n);
      while p < i
        invariant p <= i && o == start + |Lits(n, p)|
        invariant Valid() && State() == old(State()).(ctab := ctab) && old(ctab) <= ctab
      {
        if |ctab| >= CTAB || o >= PTR_LIMIT {
          break;
        }
        ctab := ctab + [CSlot(o, n[p..])];
        LitsStep(n, p);
        o := o + 1 + |n[p]|;
        p := p + 1;
      }
    }

    /** Walks the suffixes of n, longest first, up to one that is in the table. */
    method LongestSuffix(n: Name) returns (i: nat, t: nat)
      requires Valid() && NameOk(n)
      ensures i == FirstHit(ctab, n, 0) && t < PTR_LIMIT
      ensures i < |n| ==> exists k :: 0 <= k < |ctab| && ctab[k].off == t && Canon(ctab[k].name) == Canon(n[i..])
    {
      hide Canon, SnapOk, NameOk;
      i, t := 0, 0;
      while i < |n|
        invariant i <= |n| && FirstHit(ctab, n, 0) == FirstHit(ctab, n, i)
      {
        SuffixOk(n, i);
        var r := CtabFind(n[i..]);
        if r.Some? {
          TableTarget(State(), n, i, r.value);
          return i, r.value;
        }
        i := i + 1;
      }
    }

    /** The bytes a name takes if it is put in now. */
    ghost function Cost(n: Name): nat
      reads this
    {
      if compress then NameCost(ctab, n) else WireLen(n)
    }

    /** elpis_bld_name. */
    method PutName(n: Name) returns (ok: bool)
      requires Valid() && NameOk(n) && HDR_LEN <= len
      modifies this`len, this`overflow, this`foot, this`written, this`ctab, buf
      ensures Valid() && Grew(old(State()), State())
      ensures ok == (old(len) + old(Cost(n)) <= buf.Length)
      ensures !ok ==> overflow && State() == old(State())
      ensures ok ==> overflow == old(overflow) && written == old(written) + {Written(old(len), n, len)}
      ensures ok ==> len == old(len) + old(Cost(n))
      ensures ok ==> State().msg[..old(len)] == old(State().msg)
      ensures ok ==> Parses(State().msg, old(len), n, len)
    {
      hide SnapOk, Points, NameOk, Lits, Canon, WireLen, DecTo, Parses;
      ghost var s := State();
      var start := len;
      WireIsLits(n);
      if !compress {
        ok := Emit(n, |n|, 0) by {
          assert Points(s, n, |n|, 0) by {
            NoPointer(s, n, 0);
          }
        }
        if ok {
          WrittenParses(State(), Written(start, n, len));
        }
        return;
      }
      var i, t := LongestSuffix(n);
      assert Points(s, n, i, t) by {
        if i < |n| {
          TableTarget(s, n, i, t);
        } else {
          NoPointer(s, n, t);
        }
      }
      ok := Emit(n, i, t);
      if ok {
        RegisterOk(s, n, i, t);
        Register(n, i, start);
        RegisterGrew(s, WithName(s, n, i, t), ctab);
        WrittenParses(State(), Written(start, n, len));
      }
    }

    /** elpis_bld_name_raw: the whole name written out, not offered to later names. */
    method PutRaw(n: Name) returns (ok: bool)
      requires Valid() && NameOk(n) && HDR_LEN <= len
      modifies this`len, this`overflow, this`foot, this`written, buf
      ensures Valid() && Grew(old(State()), State())
      ensures ok == (old(len) + WireLen(n) <= buf.Length)
      ensures !ok ==> overflow && State() == old(State())
      ensures ok ==> overflow == old(overflow) && State() == WithName(old(State()), n, |n|, 0)
      ensures ok ==> len == old(len) + WireLen(n)
    {
      hide SnapOk, Points, NameOk, Lits, WireLen;
      NoPointer(State(), n, 0);
      WireIsLits(n);
      ok := Emit(n, |n|, 0);
    }

    /** Two 16-bit fields; the first may go in without the second. */
    method PutPair(x: nat, y: nat) returns (ok: bool)
      requires Valid()
      modifies this`len, this`overflow, buf
      ensures Valid() && Grew(old(State()), State()) && ok == (old(len) + 4 <= buf.Length)
      ensures !ok ==> overflow
      ensures ok ==> overflow == old(overflow)
      ensures ok ==> State() == old(State()).(msg := old(State()).msg + (Be16(x) + Be16(y)))
    {
      hide SnapOk, Grew;
      ghost var s := State();
      ok := Bytes(Be16(x));
      if ok {
        ghost var s1 := State();
        ok := Bytes(Be16(y));
        GrewTrans(s, s1, State());
        assert s.msg + Be16(x) + Be16(y) == s.msg + (Be16(x) + Be16(y));
      }
    }

    /** The TTL and an empty length field. */
    method PutTtl(ttl: nat) returns (ok: bool, rdlenPos: nat)
      requires Valid()
      modifies this`len, this`overflow, buf
      ensures Valid() && Grew(old(State()), State()) && ok == (old(len) + 6 <= buf.Length) && rdlenPos <= len
      ensures !ok ==> overflow
      ensures ok ==> overflow == old(overflow) && rdlenPos == len - 2
      ensures ok ==> State() == old(State()).(msg := old(State()).msg + (Be32(ttl) + Be16(0)))
    {
      hide SnapOk, Grew;
      ghost var s := State();
      rdlenPos := 0;
      ok := Bytes(Be32(ttl));
      if ok {
        ghost var s1 := State();
        rdlenPos := len;
        ok := Bytes(Be16(0));
        GrewTrans(s, s1, State());
        assert s.msg + Be32(ttl) + Be16(0) == s.msg + (Be32(ttl) + Be16(0));
      }
    }

    /** elpis_bld_question; a failure part way leaves what was already written. */
    method Question(n: Name, qtype: nat, qclass: nat) returns (ok: bool)
      requires Valid() && NameOk(n) && HDR_LEN <= len
      modifies this`len, this`overflow, this`foot, this`written, this`ctab, this`counts, buf
      ensures Valid() && Grew(old(State()), State())
      ensures ok == (old(len) + WireLen(n) + 4 <= buf.Length)
      ensures !ok ==> overflow
      ensures ok ==> overflow == old(overflow) && len == old(len) + WireLen(n) + 4
      ensures ok ==> State().msg == old(State()).msg + Encoded(n, |n|, 0) + (Be16(qtype) + Be16(qclass))
      ensures ok ==> foot == EncodedFoot(old(foot), old(len), n, |n|)
      ensures ok ==> written == old(written) + {Written(old(len), n, len - 4)}
      ensures ok ==> counts == old(counts)[0 := (old(counts)[0] + 1) % 0x1_0000]
    {
      hide SnapOk, EntryOk, NameOk, Lits, WireLen, Grew, Encoded, EncodedFoot;
      ghost var s := State();
      var start := len;
      ok := PutRaw(n);
      if !ok {
        return;
      }
      assert start + |Encoded(n, |n|, 0)| == len;
      ghost var s1 := State();
      ok := PutPair(qtype, qclass);
      GrewTrans(s, s1, State());
      if !ok {
        return;
      }
      ghost var s3 := State();
      if compress {
        AnnounceOk(s, n, s3.msg);
        Register(n, |n|, start);
        RegisterGrew(s, s3, ctab);
      }
      counts := counts[0 := (counts[0] + 1) % 0x1_0000];
    }

    /** elpis_bld_rr_begin; a failure part way leaves what was already written. */
    method RrBegin(owner: Name, rtype: nat, rclass: nat, ttl: nat) returns (ok: bool, rdlenPos: nat)
      requires Valid() && NameOk(owner) && HDR_LEN <= len
      modifies this`len, this`overflow, this`foot, this`written, this`ctab, this`ttlOff, this`ttlVal, buf
      ensures Valid() && Grew(old(State()), State()) && rdlenPos <= len && old(ttlOff) <= ttlOff
      ensures ok == (old(len) + old(Cost(owner)) + 10 <= buf.Length)
      ensures ok ==> len == old(len) + old(Cost(owner)) + 10
      ensures !ok ==> overflow
      ensures ok ==> overflow == old(overflow) && old(len) + 11 <= len && rdlenPos == len - 2
      ensures ok ==> written == old(written) + {Written(old(len), owner, len - 10)}
      ensures ok ==> State().msg[..old(len)] == old(State()).msg
      ensures ok ==> State().msg[len - 10..] == (Be16(rtype) + Be16(rclass)) + (Be32(ttl) + Be16(0))
      ensures ok ==> forall i :: i in foot.lits || i in foot.ptrs ==> i < len - 10
      ensures ok ==> ttlOff == (if |old(ttlOff)| < ttlCap then old(ttlOff) + [len - 6] else old(ttlOff))
      ensures ok ==> ttlVal == (if |old(ttlOff)| < ttlCap then old(ttlVal) + [ttl] else old(ttlVal))
    {
      hide SnapOk, NameOk, WireLen, Grew, NameCost;
      rdlenPos := 0;
      ghost var s := State();
      ok := PutName(owner);
      if !ok {
        return;
      }
      ghost var s1 := State();
      NewName(s1, Written(|s.msg|, owner, len));
      ok := PutPair(rtype, rclass);
      ghost var s2 := State();
      GrewTrans(s, s1, s2);
      if !ok {
        return;
      }
      if |ttlOff| < ttlCap {
        ttlOff, ttlVal := ttlOff + [len], ttlVal + [ttl];
      }
      ok, rdlenPos := PutTtl(ttl);
      GrewTrans(s, s2, State());
      if ok {
        Fields(s1.msg, Be16(rtype) + Be16(rclass), Be32(ttl) + Be16(0), State().msg);
      }
    }

    /** elpis_bld_rr_end: fills in the length of what came after the length field. */
    method RrEnd(rdlenPos: nat) returns (ok: bool)
      requires Valid() && forall i :: rdlenPos <= i < rdlenPos + 2 ==> i !in foot.lits && i !in foot.ptrs
      modifies buf
      ensures Valid() && Grew(old(State()), State())
      ensures ok == (!overflow && rdlenPos + 2 <= len && len - rdlenPos - 2 <= 0xFFFF)
      ensures !ok ==> State() == old(State())
      ensures ok ==> State() == old(State()).(msg :=
        old(State()).msg[..rdlenPos] + Be16(len - rdlenPos - 2) + old(State()).msg[rdlenPos + 2..])
    {
      hide SnapOk, Grew;
      ghost var s := State();
      if overflow || rdlenPos + 2 > len || len - (rdlenPos + 2) > 0xFFFF {
        PatchOk(s, s.msg);
        return false;
      }
      var b := Be16(len - (rdlenPos + 2));
      buf[rdlenPos], buf[rdlenPos + 1] := b[0], b[1];
      assert buf[..len] == s.msg[..rdlenPos] + b + s.msg[rdlenPos + 2..];
      PatchOk(s, buf[..len]);
      return true;
    }

    /** elpis_bld_count, for section 0 (answer), 1 (authority) or 2 (additional). */
    method Count(section: nat, delta: int) returns (ok: bool)
      requires Valid()
      modifies this`counts
      ensures Valid()
      ensures ok == (section <= 2 && 0 <= old(counts)[section + 1] + delta <= 0xFFFF)
      ensures counts == if ok then old(counts)[section + 1 := old(counts)[section + 1] + delta] else old(counts)
    {
      if section + 1 > 3 {
        return false;
      }
      var v := counts[section + 1] + delta;
      if v < 0 || v > 0xFFFF {
        return false;
      }
      counts := counts[section + 1 := v];
      return true;
    }

    /** elpis_bld_header, on a builder that holds nothing yet. */
    method Header(id: nat, flags: nat) returns (ok: bool)
      requires Valid() && len == 0 && ctab == [] && written == {}
      modifies this`len, this`overflow, this`counts, buf
      ensures Valid() && ok == (HDR_LEN <= buf.Length)
      ensures counts == [0, 0, 0, 0] && len == (if ok then HDR_LEN else 0)
      ensures ok ==> overflow == old(overflow)
      ensures ok ==> State() == old(State()).(msg := Be16(id) + Be16(flags) + seq(8, _ => 0))
    {
      len, counts := 0, [0, 0, 0, 0];
      ok := Bytes(Be16(id) + Be16(flags) + seq(8, _ => 0));
    }

    /** elpis_bld_finish: the counts into the header. */
    method Finish()
      requires Valid()
      modifies buf
      ensures Valid() && Grew(old(State()), State())
      ensures len < HDR_LEN ==> State() == old(State())
      ensures len >= HDR_LEN ==> State() == old(State()).(msg := old(State()).msg[..4] +
        (Be16(counts[0]) + Be16(counts[1]) + Be16(counts[2]) + Be16(counts[3])) + old(State()).msg[HDR_LEN..])
    {
      hide EntryOk, WrittenOk, Grew;
      ghost var s := State();
      if len < HDR_LEN {
        PatchOk(s, s.msg);
        return;
      }
      var h := Be16(counts[0]) + Be16(counts[1]) + Be16(counts[2]) + Be16(counts[3]);
      forall i | 0 <= i < 8 {
        buf[4 + i] := h[i];
      }
      assert buf[..len] == s.msg[..4] + h + s.msg[HDR_LEN..];
      PatchOk(s, buf[..len]);
    }

    method Mark() returns (m: BldMark)
      requires Valid() && HDR_LEN <= len
      ensures m == BldMark(len, |ctab|, |ttlOff|, counts) && MarkOk(State(), m.len, m.nctab)
    {
      MarkNow(State());
      m := BldMark(len, |ctab|, |ttlOff|, counts);
    }

    /** elpis_bld_rollback, to a mark that nothing since has invalidated. */
    method Rollback(m: BldMark)
      requires Valid() && MarkOk(State(), m.len, m.nctab) && m.nttl <= |ttlOff| && |m.counts| == 4
      modifies this
      ensures Valid() && State() == Back(old(State()), m.len, m.nctab) && !overflow
      ensures counts == m.counts && ttlOff == old(ttlOff)[..m.nttl] && ttlVal == old(ttlVal)[..m.nttl]
    {
      ghost var s := State();
      len, ctab, counts, overflow := m.len, ctab[..m.nctab], m.counts, false;
      ttlOff, ttlVal := ttlOff[..m.nttl], ttlVal[..m.nttl];
      foot, written := Cut(foot, m.len), Before(written, m.len);
      assert buf[..len] == s.msg[..m.len];
    }
  }

  lemma {:induction false} LitsStep(n: Name, p: nat)
    requires p < |n|
    ensures |Lits(n, p + 1)| == |Lits(n, p)| + 1 + |n[p]|
  {
    hide Lits;
    LitsLen(n, p);
    LitsLen(n, p + 1);
    assert n[p..][0] == n[p] && n[p..][1..] == n[p + 1..];
  }

  lemma {:induction false} WireIsLits(n: Name)
    ensures |Lits(n, |n|)| + 1 == WireLen(n)
  {
    LitsLen(n, |n|);
    assert n[|n|..] == [];
  }

  lemma {:induction false} NoPointer(s: Snap, n: Name, t: nat)
    ensures Points(s, n, |n|, t)
  {
  }

  /** A table entry for the rest of the name is something to point at. */
  lemma {:induction false} TableTarget(s: Snap, n: Name, i: nat, t: nat)
    requires SnapOk(s) && i < |n|
    requires exists k :: 0 <= k < |s.ctab| && s.ctab[k].off == t && Canon(s.ctab[k].name) == Canon(n[i..])
    ensures t < PTR_LIMIT && Points(s, n, i, t)
  {
    hide Canon, Dec, NameEnd, WrittenOk;
    var k :| 0 <= k < |s.ctab| && s.ctab[k].off == t && Canon(s.ctab[k].name) == Canon(n[i..]);
    var e := s.ctab[k];
    assert EntryOk(s.msg, s.foot, e);
    assert |e.name| == |Canon(e.name)| == |n| - i;
    var d :| Dec(s.msg, s.foot, t, t, d, |e.name| - 1) && Canon(d) == Canon(e.name);
  }

  /** Every suffix about to be registered decodes where it will be said to be. */
  lemma {:induction false} RegisterOk(s: Snap, n: Name, i: nat, t: nat)
    requires SnapOk(s) && NameOk(n) && i <= |n| && t < PTR_LIMIT && Points(s, n, i, t)
    ensures forall p :: 0 <= p < i && |s.msg| + |Lits(n, p)| < PTR_LIMIT ==>
      EntryOk(WithName(s, n, i, t).msg, WithName(s, n, i, t).foot, CSlot(|s.msg| + |Lits(n, p)|, n[p..]))
  {
    hide SnapOk, NameOk, Points, Lits, EntryOk, WithName;
    forall p | 0 <= p < i && |s.msg| + |Lits(n, p)| < PTR_LIMIT
      ensures EntryOk(WithName(s, n, i, t).msg, WithName(s, n, i, t).foot, CSlot(|s.msg| + |Lits(n, p)|, n[p..]))
    {
      EntryFits(s, n, i, t, p);
    }
  }

  lemma {:induction false} RegisterGrew(s: Snap, s': Snap, ctab: seq<CSlot>)
    requires Grew(s, s') && s'.ctab <= ctab
    ensures Grew(s, s'.(ctab := ctab))
  {
  }

  lemma {:induction false} EntryGrew(msg: seq<byte>, f: Foot, msg': seq<byte>, e: CSlot)
    requires EntryOk(msg, f, e) && msg <= msg'
    ensures EntryOk(msg', f, e)
  {
    hide DecTo, NameEnd, NameOk;
    DecToFrame(msg, f, msg', f, e.off, e.name, |e.name| - 1);
  }

  lemma {:induction false} GrewTrans(s: Snap, s': Snap, s'': Snap)
    requires Grew(s, s') && Grew(s', s'')
    ensures Grew(s, s'')
  {
    var n := |s.msg|;
    assert Cut(Cut(s''.foot, |s'.msg|), n) == Cut(s''.foot, n);
    assert Before(Before(s''.written, |s'.msg|), n) == Before(s''.written, n);
    forall i | (i in s.foot.lits || i in s.foot.ptrs) && i < n
      ensures i < |s''.msg| && s''.msg[i] == s.msg[i]
    {
      assert i in Cut(s'.foot, n).lits || i in Cut(s'.foot, n).ptrs;
    }
  }

  lemma {:induction false} NewName(s: Snap, w: Written)
    requires SnapOk(s) && w in s.written
    ensures w.off < w.end && forall i :: i in s.foot.lits || i in s.foot.ptrs ==> i < |s.msg|
  {
    assert WrittenOk(s.msg, s.foot, w);
  }

  lemma {:induction false} Fields(msg: seq<byte>, u: seq<byte>, v: seq<byte>, msg': seq<byte>)
    requires msg' == msg + u + v
    ensures msg'[|msg|..] == u + v && msg <= msg'
  {
  }

  /** A name written out in full can be registered even after more was written behind it. */
  lemma {:induction false} AnnounceOk(s: Snap, n: Name, msg': seq<byte>)
    requires SnapOk(s) && NameOk(n) && WithName(s, n, |n|, 0).msg <= msg'
    ensures forall p :: 0 <= p < |n| && |s.msg| + |Lits(n, p)| < PTR_LIMIT ==>
      EntryOk(msg', WithName(s, n, |n|, 0).foot, CSlot(|s.msg| + |Lits(n, p)|, n[p..]))
  {
    hide SnapOk, NameOk, Lits, EntryOk, WithName, Points;
    NoPointer(s, n, 0);
    RegisterOk(s, n, |n|, 0);
    var s' := WithName(s, n, |n|, 0);
    forall p | 0 <= p < |n| && |s.msg| + |Lits(n, p)| < PTR_LIMIT
      ensures EntryOk(msg', s'.foot, CSlot(|s.msg| + |Lits(n, p)|, n[p..]))
    {
      EntryGrew(s'.msg, s'.foot, msg', CSlot(|s.msg| + |Lits(n, p)|, n[p..]));
    }
  }

  // ---------------------------------------------------------------------------
  // Every run
  // ---------------------------------------------------------------------------

  /** The parser, started at off, returns n up to case and stops at end. */
  ghost predicate Parses(msg: seq<byte>, off: nat, n: Name, end: nat) {
    && NameEnd(msg, off) == end && ParseName(msg, off, off, 0, 0, 0).Some?
    && Canon(ParseName(msg, off, off, 0, 0, 0).value) == Canon(n)
  }

  ghost predicate Decodable(s: Snap) {
    && (forall w :: w in s.written ==> Parses(s.msg, w.off, w.name, w.end))
    && (forall k :: 0 <= k < |s.ctab| ==> Parses(s.msg, s.ctab[k].off, s.ctab[k].name, NameEnd(s.msg, s.ctab[k].off)))
  }

  /** A name put in the message is what elpis_name_parse reads back where it was put. */
  lemma {:induction false} WrittenParses(s: Snap, w: Written)
    requires SnapOk(s) && w in s.written
    ensures Parses(s.msg, w.off, w.name, w.end)
  {
    hide DecTo, NameEnd, ParseName, Canon, NameOk;
    assert WrittenOk(s.msg, s.foot, w);
    var d := DecToParses(s.msg, s.foot, w.off, w.name, |w.name|);
  }

  /** The invariant is about the very parser that reads messages. */
  lemma {:induction false} SoundDecodes(s: Snap)
    requires SnapOk(s)
    ensures Decodable(s)
  {
    hide DecTo, NameEnd, ParseName, Canon, NameOk;
    forall w | w in s.written
      ensures Parses(s.msg, w.off, w.name, w.end)
    {
      WrittenParses(s, w);
    }
    forall k | 0 <= k < |s.ctab|
      ensures Parses(s.msg, s.ctab[k].off, s.ctab[k].name, NameEnd(s.msg, s.ctab[k].off))
    {
      var e := s.ctab[k];
      assert EntryOk(s.msg, s.foot, e);
      var d := DecToParses(s.msg, s.foot, e.off, e.name, |e.name| - 1);
    }
  }

  datatype Op =
    | DoBytes(p: seq<byte>)
    | DoName(n: Name)
    | DoRaw(n: Name)
    | DoQuestion(n: Name, x: nat, y: nat)
    | DoBegin(n: Name, x: nat, y: nat, ttl: nat)
    | DoEnd
    | DoCount(section: nat, delta: int)
    | DoFinish
    | DoMark
    | DoRollback(i: nat)

  predicate OpOk(op: Op) {
    (op.DoName? || op.DoRaw? || op.DoQuestion? || op.DoBegin?) ==> NameOk(op.n)
  }

  /** The marks taken are all good, oldest first, and the open record's length field is no name. */
  ghost predicate MarksOk(s: Snap, nttl: nat, marks: seq<BldMark>, open: Option<nat>) {
    && HDR_LEN <= |s.msg|
    && (forall i :: 0 <= i < |marks| ==>
         MarkOk(s, marks[i].len, marks[i].nctab) && marks[i].nttl <= nttl && |marks[i].counts| == 4)
    && (forall i, j :: 0 <= i < j < |marks| ==>
         marks[i].len <= marks[j].len && marks[i].nctab <= marks[j].nctab && marks[i].nttl <= marks[j].nttl)
    && (open.Some? ==> open.value + 2 <= |s.msg| && OffNames(s, open.value))
  }

  ghost predicate OffNames(s: Snap, pos: nat) {
    forall i :: pos <= i < pos + 2 ==> i !in s.foot.lits && i !in s.foot.ptrs
  }

  lemma {:induction false} MarksKept(s: Snap, s': Snap, nttl: nat, nttl': nat, marks: seq<BldMark>, open: Option<nat>)
    requires MarksOk(s, nttl, marks, open) && Grew(s, s') && nttl <= nttl'
    ensures MarksOk(s', nttl', marks, open)
  {
    hide SnapOk;
    forall i | 0 <= i < |marks|
      ensures MarkOk(s', marks[i].len, marks[i].nctab)
    {
      MarkKept(s, s', marks[i].len, marks[i].nctab);
    }
    if open.Some? {
      forall i | open.value <= i < open.value + 2
        ensures i !in s'.foot.lits && i !in s'.foot.ptrs
      {
        assert i !in Cut(s'.foot, |s.msg|).lits && i !in Cut(s'.foot, |s.msg|).ptrs;
      }
    }
  }

  lemma {:induction false} MarksBack(s: Snap, nttl: nat, marks: seq<BldMark>, open: Option<nat>, i: nat)
    requires MarksOk(s, nttl, marks, open) && i < |marks|
    ensures MarkOk(s, marks[i].len, marks[i].nctab)
    ensures MarksOk(Back(s, marks[i].len, marks[i].nctab), marks[i].nttl, marks[..i + 1], None)
  {
    hide SnapOk, Back;
    var m := marks[i];
    forall k | 0 <= k <= i
      ensures MarkOk(Back(s, m.len, m.nctab), marks[k].len, marks[k].nctab)
    {
      MarkBack(s, m.len, m.nctab, marks[k].len, marks[k].nctab);
    }
    assert |Back(s, m.len, m.nctab).msg| == m.len by {
      BackLen(s, m.len, m.nctab);
    }
  }

  lemma {:induction false} BackLen(s: Snap, n: nat, k: nat)
    requires n <= |s.msg| && k <= |s.ctab|
    ensures |Back(s, n, k).msg| == n
  {
  }

  lemma {:induction false} MarksMore(s: Snap, nttl: nat, marks: seq<BldMark>, open: Option<nat>, m: BldMark)
    requires MarksOk(s, nttl, marks, open) && MarkOk(s, m.len, m.nctab)
    requires m.len == |s.msg| && m.nctab == |s.ctab| && m.nttl == nttl && |m.counts| == 4
    ensures MarksOk(s, nttl, marks + [m], open)
  {
    hide SnapOk;
  }

  /** One call on a builder, with the marks its caller still holds. */
  method Step(b: Bld, op: Op, marks: seq<BldMark>, open: Option<nat>) returns (marks': seq<BldMark>, open': Option<nat>)
    requires b.Valid() && OpOk(op) && MarksOk(b.State(), |b.ttlOff|, marks, open)
    modifies b, b.buf
    ensures b.Valid() && MarksOk(b.State(), |b.ttlOff|, marks', open')
  {
    hide SnapOk, Grew, MarksOk, MarkOk, NameOk, WithName, NameCost, WireLen;
    ghost var s, k := b.State(), |b.ttlOff|;
    marks', open' := marks, open;
    MarksHdr(s, k, marks, open);
    if op.DoMark? {
      var m := b.Mark();
      MarksMore(s, k, marks, open, m);
      marks' := marks + [m];
      return;
    }
    if op.DoRollback? {
      if op.i < |marks| {
        MarksBack(s, k, marks, open, op.i);
        MarksIndex(s, k, marks, open, op.i);
        b.Rollback(marks[op.i]);
        marks', open' := marks[..op.i + 1], None;
      }
      return;
    }
    open' := Append(b, op, open) by {
      if open.Some? {
        assert OffNames(s, open.value) by {
          MarksOpen(s, k, marks, open);
        }
      }
    }
    MarksKept(s, b.State(), k, |b.ttlOff|, marks, open);
    MarksReopen(b.State(), |b.ttlOff|, marks, open, open');
  }

  /** The calls that only add to the message. */
  method Append(b: Bld, op: Op, open: Option<nat>) returns (open': Option<nat>)
    requires b.Valid() && OpOk(op) && !op.DoMark? && !op.DoRollback? && HDR_LEN <= b.len
    requires open.Some? ==> OffNames(b.State(), open.value)
    modifies b, b.buf
    ensures b.Valid() && Grew(old(b.State()), b.State()) && |b.ttlOff| >= old(|b.ttlOff|)
    ensures open' == open || (open'.Some? && open'.value + 2 <= b.len && OffNames(b.State(), open'.value))
  {
    hide SnapOk, Grew, NameOk, WithName, NameCost, WireLen;
    open' := open;
    match op {
      case DoBytes(p) => {
        var _ := b.Bytes(p);
      }
      case DoName(n) => {
        var _ := b.PutName(n);
      }
      case DoRaw(n) => {
        var _ := b.PutRaw(n);
      }
      case DoQuestion(n, x, y) => {
        var _ := b.Question(n, x, y);
      }
      case DoBegin(n, x, y, ttl) => {
        var ok, pos := b.RrBegin(n, x, y, ttl);
        if ok {
          open' := Some(pos);
        }
      }
      case DoEnd => {
        if open.Some? {
          var _ := b.RrEnd(open.value);
        } else {
          GrewSelf(b.State());
        }
      }
      case DoCount(c, d) => {
        var _ := b.Count(c, d);
        GrewSelf(b.State());
      }
      case DoFinish => {
        b.Finish();
      }
    }
  }

  lemma {:induction false} GrewSelf(s: Snap)
    requires SnapOk(s)
    ensures Grew(s, s)
  {
    MarkCuts(s);
  }

  lemma {:induction false} MarksHdr(s: Snap, nttl: nat, marks: seq<BldMark>, open: Option<nat>)
    requires MarksOk(s, nttl, marks, open)
    ensures HDR_LEN <= |s.msg|
  {
  }

  lemma {:induction false} MarksIndex(s: Snap, nttl: nat, marks: seq<BldMark>, open: Option<nat>, i: nat)
    requires MarksOk(s, nttl, marks, open) && i < |marks|
    ensures marks[i].nttl <= nttl && |marks[i].counts| == 4
  {
  }

  lemma {:induction false} MarksOpen(s: Snap, nttl: nat, marks: seq<BldMark>, open: Option<nat>)
    requires MarksOk(s, nttl, marks, open)
    ensures open.Some? ==> OffNames(s, open.value)
  {
  }

  lemma {:induction false} MarksReopen(s: Snap, nttl: nat, marks: seq<BldMark>, open: Option<nat>, open': Option<nat>)
    requires MarksOk(s, nttl, marks, open)
    requires open' == open || (open'.Some? && open'.value + 2 <= |s.msg| && OffNames(s, open'.value))
    ensures MarksOk(s, nttl, marks, open')
  {
  }

  /**
   Whatever is called, in whatever order, with rollbacks to any mark still held: every name
   in the message and every table entry parses back to itself up to case.
   */
  method Run(cap: nat, compress: bool, ttls: nat, id: nat, flags: nat, ops: seq<Op>) returns (b: Bld)
    requires forall i :: 0 <= i < |ops| ==> OpOk(ops[i])
    ensures fresh(b) && fresh(b.buf) && b.Valid() && Decodable(b.State())
  {
    hide SnapOk, MarksOk, Decodable;
    b := new Bld(cap, compress, ttls);
    var ok := b.Header(id, flags);
    if ok {
      var marks: seq<BldMark>, open: Option<nat> := [], None;
      assert MarksOk(b.State(), |b.ttlOff|, marks, open) by {
        NoMarks(b.State(), |b.ttlOff|);
      }
      for i := 0 to |ops|
        invariant fresh(b) && fresh(b.buf) && b.Valid() && MarksOk(b.State(), |b.ttlOff|, marks, open)
      {
        marks, open := Step(b, ops[i], marks, open);
      }
    }
    SoundDecodes(b.State());
  }

  lemma {:induction false} NoMarks(s: Snap, nttl: nat)
    requires HDR_LEN <= |s.msg|
    ensures MarksOk(s, nttl, [], None)
  {
  }
}
