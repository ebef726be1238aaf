/**
 Resource records in messages: reading them one after the other (src/dns/msg.c) and
 composing the answer that the message cache keeps (src/resolver/resolver.c).
 */
module Records {
  import opened Words
  import opened Bytes
  import opened Names
  import opened WireParse
  import opened Builder

  const MAX_MSG: nat := 65535
  const TTL_SLOTS: nat := 4096

  datatype Rr = Rr(owner: Name, rtype: nat, rclass: nat, ttl: nat, rdata: seq<byte>)

  predicate RrOk(r: Rr) {
    NameOk(r.owner) && r.rtype < 0x1_0000 && r.rclass < 0x1_0000 && r.ttl < 0x1_0000_0000 && |r.rdata| <= 0xFFFF
  }

  // ---------------------------------------------------------------------------
  // Reading
  // ---------------------------------------------------------------------------

  /** elpis_rr_next at an offset: the record and where the next one starts. */
  function ParseRr(msg: seq<byte>, off: nat): Option<(Rr, nat)> {
    match ParseName(msg, off, off, 0, 0, 0)
    case None => None
    case Some(n) =>
      var p := NameEnd(msg, off);
      if p + 10 > |msg| || p + 10 + Get16(msg, p + 8) > |msg| then None
      else
        var e := p + 10 + Get16(msg, p + 8);
        Some((Rr(n, Get16(msg, p), Get16(msg, p + 2), Get32(msg, p + 4), msg[p + 10..e]), e))
  }

  method RrNext(msg: seq<byte>, off: nat) returns (r: Option<(Rr, nat)>)
    ensures r == ParseRr(msg, off)
  {
    hide ParseName, NameEnd;
    var n := NameParse(msg, off);
    if n.None? {
      return None;
    }
    var p := n.value.1;
    if p + 10 > |msg| {
      return None;
    }
    var rdlen := Get16(msg, p + 8);
    if p + 10 + rdlen > |msg| {
      return None;
    }
    return Some((Rr(n.value.0, Get16(msg, p), Get16(msg, p + 2), Get32(msg, p + 4), msg[p + 10..p + 10 + rdlen]),
        p + 10 + rdlen));
  }

  /** k records, one after the other. */
  function ParseRrs(msg: seq<byte>, off: nat, k: nat): Option<(seq<Rr>, nat)>
    decreases k
  {
    if k == 0 then Some(([], off))
    else
      match ParseRr(msg, off)
      case None => None
      case Some((r, e)) =>
        match ParseRrs(msg, e, k - 1)
        case None => None
        case Some((rs, e')) => Some(([r] + rs, e'))
  }

  // ---------------------------------------------------------------------------
  // A record in place
  // ---------------------------------------------------------------------------

  /** Owner at [start, mid), then ten bytes, then data up to next. */
  datatype Slot = Slot(start: nat, mid: nat, next: nat)

  function Fixed(rtype: nat, rclass: nat, ttl: nat, rdlen: nat): (w: seq<byte>)
    ensures |w| == 10
  {
    (Be16(rtype) + Be16(rclass)) + (Be32(ttl) + Be16(rdlen))
  }

  ghost predicate OffFoot(f: Foot, a: nat, b: nat) {
    forall i :: a <= i < b ==> i !in f.lits && i !in f.ptrs
  }

  /** The record stands there, and its owner needs nothing that comes after it. */
  ghost predicate RecAt(msg: seq<byte>, f: Foot, sl: Slot, rr: Rr) {
    && RrOk(rr) && sl.start < sl.mid && sl.next == sl.mid + 10 + |rr.rdata| && sl.next <= |msg|
    && DecTo(msg[..sl.next], Cut(f, sl.next), sl.start, rr.owner, |rr.owner|)
    && NameEnd(msg[..sl.next], sl.start) == sl.mid
    && Holds(msg, sl.mid, Fixed(rr.rtype, rr.rclass, rr.ttl, |rr.rdata|) + rr.rdata)
    && OffFoot(f, sl.mid, sl.next)
  }

  lemma {:induction false} Be16Back(v: nat, m: seq<byte>, i: nat)
    requires v < 0x1_0000 && Holds(m, i, Be16(v))
    ensures Get16(m, i) == v
  {
    var w := m[i..i + 2];
    assert m[i] == w[0] && m[i + 1] == w[1];
  }

  lemma {:induction false} Be32Split(v: nat)
    requires v < 0x1_0000_0000
    ensures v == (v / 0x100_0000 % 256) * 0x100_0000 + (v / 0x1_0000 % 256) * 0x1_0000 + (v / 256 % 256) * 256 + v % 256
  {
    assert v / 0x1_0000 == v / 256 / 256;
    assert v / 0x100_0000 == v / 256 / 256 / 256;
  }

  lemma {:induction false} Be32Back(v: nat, m: seq<byte>, i: nat)
    requires v < 0x1_0000_0000 && Holds(m, i, Be32(v))
    ensures Get32(m, i) == v
  {
    var w := m[i..i + 4];
    assert m[i] == w[0] && m[i + 1] == w[1] && m[i + 2] == w[2] && m[i + 3] == w[3];
    Be32Split(v);
  }

  lemma {:induction false} FixedBack(m: seq<byte>, p: nat, rtype: nat, rclass: nat, ttl: nat, rdata: seq<byte>)
    requires rtype < 0x1_0000 && rclass < 0x1_0000 && ttl < 0x1_0000_0000 && |rdata| <= 0xFFFF
    requires Holds(m, p, Fixed(rtype, rclass, ttl, |rdata|) + rdata)
    ensures p + 10 + |rdata| <= |m| && Get16(m, p) == rtype && Get16(m, p + 2) == rclass
    ensures Get32(m, p + 4) == ttl && Get16(m, p + 8) == |rdata| && m[p + 10..p + 10 + |rdata|] == rdata
  {
    var a, b, c, d := Be16(rtype), Be16(rclass), Be32(ttl), Be16(|rdata|);
    HoldsConcat(m, p, Fixed(rtype, rclass, ttl, |rdata|), rdata);
    assert Fixed(rtype, rclass, ttl, |rdata|) == (a + b) + (c + d);
    hide Fixed;
    HoldsConcat(m, p, a + b, c + d);
    HoldsConcat(m, p, a, b);
    HoldsConcat(m, p + 4, c, d);
    assert p + 10 + |rdata| <= |m|;
    hide Holds;
    Be16Back(rtype, m, p);
    Be16Back(rclass, m, p + 2);
    Be32Back(ttl, m, p + 4);
    Be16Back(|rdata|, m, p + 8);
  }

  // ---------------------------------------------------------------------------
  // Composing
  // ---------------------------------------------------------------------------

  /** rdlen filled in behind the data turns the zero placeholder into the record's fixed part. */
  lemma {:induction false} FilledIn(m: seq<byte>, rtype: nat, rclass: nat, ttl: nat, rdata: seq<byte>, m': seq<byte>)
    requires |m| >= 10 && m[|m| - 10..] == (Be16(rtype) + Be16(rclass)) + (Be32(ttl) + Be16(0))
    requires m' == (m + rdata)[..|m| - 2] + Be16(|rdata|) + (m + rdata)[|m|..]
    ensures Holds(m', |m| - 10, Fixed(rtype, rclass, ttl, |rdata|) + rdata) && m'[..|m| - 10] == m[..|m| - 10]
    ensures |m'| == |m| + |rdata|
  {
    var p, w := |m| - 10, (Be16(rtype) + Be16(rclass)) + Be32(ttl);
    assert m[p..|m|] == m[p..];
    assert m[p..|m| - 2] == w;
    assert (m + rdata)[|m|..] == rdata;
    assert (m + rdata)[..|m| - 2] == m[..p] + w;
    assert m' == m[..p] + (w + Be16(|rdata|) + rdata);
    assert Fixed(rtype, rclass, ttl, |rdata|) == w + Be16(|rdata|);
    hide Fixed;
    assert m'[p..] == w + Be16(|rdata|) + rdata;
  }

  /** s' only added behind s. */
  ghost predicate Behind(s: Snap, s': Snap) {
    s.msg <= s'.msg && Cut(s'.foot, |s.msg|) == s.foot
  }

  lemma {:induction false} RecBehind(s: Snap, s': Snap, sl: Slot, rr: Rr)
    requires RecAt(s.msg, s.foot, sl, rr) && Behind(s, s')
    ensures RecAt(s'.msg, s'.foot, sl, rr)
  {
    hide DecTo, NameEnd, Fixed, RrOk;
    assert s'.msg[..sl.next] == s.msg[..sl.next];
    assert Cut(s'.foot, sl.next) == Cut(s.foot, sl.next) by {
      assert Cut(Cut(s'.foot, |s.msg|), sl.next) == Cut(s'.foot, sl.next);
    }
    assert s'.msg[sl.mid..sl.next] == s.msg[sl.mid..sl.next];
    forall i | sl.mid <= i < sl.next
      ensures i !in s'.foot.lits && i !in s'.foot.ptrs
    {
      assert i !in Cut(s'.foot, |s.msg|).lits && i !in Cut(s'.foot, |s.msg|).ptrs;
    }
  }

  lemma {:induction false} RecNew(s: Snap, sl: Slot, rr: Rr)
    requires SnapOk(s) && RrOk(rr) && Written(sl.start, rr.owner, sl.mid) in s.written
    requires sl.next == sl.mid + 10 + |rr.rdata| == |s.msg|
    requires Holds(s.msg, sl.mid, Fixed(rr.rtype, rr.rclass, rr.ttl, |rr.rdata|) + rr.rdata)
    requires forall i :: i in s.foot.lits || i in s.foot.ptrs ==> i < sl.mid
    ensures RecAt(s.msg, s.foot, sl, rr)
  {
    hide EntryOk, DecTo, NameEnd, Fixed, NameOk;
    assert WrittenOk(s.msg, s.foot, Written(sl.start, rr.owner, sl.mid));
    MarkCuts(s);
    assert s.msg[..sl.next] == s.msg;
  }

  /** The data of the record just begun, and its length filled in. */
  method PutData(b: Bld, rdata: seq<byte>, pos: nat) returns (ok: bool)
    requires b.Valid() && !b.overflow && pos + 2 == b.len && |rdata| <= 0xFFFF
    requires forall i :: i in b.foot.lits || i in b.foot.ptrs ==> i < pos
    modifies b`len, b`overflow, b.buf
    ensures b.Valid() && ok == (old(b.len) + |rdata| <= b.buf.Length)
    ensures ok ==> !b.overflow && b.len == old(b.len) + |rdata|
    ensures ok ==> b.State() == old(b.State()).(msg :=
      (old(b.State()).msg + rdata)[..pos] + Be16(|rdata|) + (old(b.State()).msg + rdata)[pos + 2..])
  {
    hide SnapOk, Be16, Grew;
    ok := b.Bytes(rdata);
    if ok {
      ok := b.RrEnd(pos);
    }
  }

  /** One record: begin, data, end, count. */
  method AppendRecord(b: Bld, rr: Rr, section: nat) returns (ok: bool, ghost sl: Slot)
    requires b.Valid() && RrOk(rr) && HDR_LEN <= b.len && !b.overflow
    requires section <= 2 && b.counts[section + 1] < 0xFFFF
    modifies b, b.buf
    ensures b.Valid()
    ensures b.counts == (if ok then old(b.counts)[section + 1 := old(b.counts)[section + 1] + 1] else old(b.counts))
    ensures ok == (old(b.len) + old(b.Cost(rr.owner)) + 10 + |rr.rdata| <= b.buf.Length)
    ensures ok ==> b.len == old(b.len) + old(b.Cost(rr.owner)) + 10 + |rr.rdata|
    ensures ok ==> !b.overflow && Behind(old(b.State()), b.State()) && old(b.len) + 11 <= b.len
    ensures ok ==> sl.start == old(b.len) && sl.next == b.len && RecAt(b.State().msg, b.foot, sl, rr)
    ensures ok ==> b.ttlOff == if |old(b.ttlOff)| < b.ttlCap then old(b.ttlOff) + [sl.mid + 4] else old(b.ttlOff)
    ensures ok ==> b.ttlVal == if |old(b.ttlOff)| < b.ttlCap then old(b.ttlVal) + [rr.ttl] else old(b.ttlVal)
  {
    hide SnapOk, NameOk, RecAt, Be16, Be32, Grew, Behind;
    ghost var s := b.State();
    var pos;
    sl := Slot(b.len, b.len, b.len);
    ok, pos := b.RrBegin(rr.owner, rr.rtype, rr.rclass, rr.ttl);
    if !ok {
      return;
    }
    ghost var s1 := b.State();
    ok := PutData(b, rr.rdata, pos);
    if !ok {
      return;
    }
    sl := Slot(|s.msg|, |s1.msg| - 10, b.len);
    RecordDone(s, s1, b.State(), sl, rr);
    var _ := b.Count(section, 1);
  }

  /** From a record begun (s1) to a record ended (s3). */
  lemma {:induction false} RecordDone(s: Snap, s1: Snap, s3: Snap, sl: Slot, rr: Rr)
    requires SnapOk(s3) && RrOk(rr) && Grew(s, s1) && |s.msg| + 11 <= |s1.msg| && s1.msg[..|s.msg|] == s.msg
    requires s1.msg[|s1.msg| - 10..] == (Be16(rr.rtype) + Be16(rr.rclass)) + (Be32(rr.ttl) + Be16(0))
    requires s3.msg == (s1.msg + rr.rdata)[..|s1.msg| - 2] + Be16(|rr.rdata|) + (s1.msg + rr.rdata)[|s1.msg|..]
    requires s3.foot == s1.foot && forall i :: i in s1.foot.lits || i in s1.foot.ptrs ==> i < |s1.msg| - 10
    requires sl == Slot(|s.msg|, |s1.msg| - 10, |s3.msg|) && Written(sl.start, rr.owner, sl.mid) in s3.written
    ensures RecAt(s3.msg, s3.foot, sl, rr) && Behind(s, s3)
  {
    hide SnapOk, Holds, NameOk, Fixed, RecAt, Be16, Be32;
    FilledIn(s1.msg, rr.rtype, rr.rclass, rr.ttl, rr.rdata, s3.msg);
    RecNew(s3, sl, rr);
    Prefixes(s.msg, s1.msg, s3.msg, |s1.msg| - 10);
  }

  lemma {:induction false} Prefixes(a: seq<byte>, b: seq<byte>, c: seq<byte>, n: nat)
    requires |a| <= n <= |b| && n <= |c| && b[..|a|] == a && c[..n] == b[..n]
    ensures a <= c
  {
    forall i | 0 <= i < |a|
      ensures c[i] == a[i]
    {
      assert c[..n][i] == b[..n][i] && b[..|a|][i] == a[i];
    }
  }

  /** The records rrs stand one after the other from qend on, each in its slot. */
  ghost predicate Laid(msg: seq<byte>, f: Foot, qend: nat, slots: seq<Slot>, rrs: seq<Rr>) {
    && |slots| == |rrs|
    && (forall i :: 0 <= i < |slots| ==> RecAt(msg, f, slots[i], rrs[i]))
    && (forall i :: 0 <= i < |slots| ==> slots[i].start == End(qend, slots, i))
  }

  /** Where the first k records end. */
  ghost function End(qend: nat, slots: seq<Slot>, k: nat): nat
    requires k <= |slots|
  {
    if k == 0 then qend else slots[k - 1].next
  }

  /** The offsets and values of the TTLs of the first records, as many as there is room for. */
  ghost predicate TtlsAt(slots: seq<Slot>, rrs: seq<Rr>, cap: nat, off: seq<nat>, val: seq<nat>) {
    && |off| == |val| == (if |slots| < cap then |slots| else cap) && |slots| == |rrs|
    && forall k :: 0 <= k < |off| ==> off[k] == slots[k].mid + 4 && val[k] == rrs[k].ttl
  }

  lemma {:induction false} LaidMore(s: Snap, s': Snap, qend: nat, slots: seq<Slot>, rrs: seq<Rr>, sl: Slot, rr: Rr)
    requires Laid(s.msg, s.foot, qend, slots, rrs) && Behind(s, s')
    requires RecAt(s'.msg, s'.foot, sl, rr) && sl.start == End(qend, slots, |slots|)
    ensures Laid(s'.msg, s'.foot, qend, slots + [sl], rrs + [rr])
  {
    hide RecAt, Behind;
    forall i | 0 <= i < |slots|
      ensures RecAt(s'.msg, s'.foot, slots[i], rrs[i])
    {
      RecBehind(s, s', slots[i], rrs[i]);
    }
  }

  lemma {:induction false} BehindTrans(s: Snap, s': Snap, s'': Snap)
    requires Behind(s, s') && Behind(s', s'')
    ensures Behind(s, s'')
  {
    var n := |s.msg|;
    assert Cut(Cut(s''.foot, |s'.msg|), n) == Cut(s''.foot, n);
  }

  lemma {:induction false} BehindSelf(s: Snap)
    requires SnapOk(s)
    ensures Behind(s, s)
  {
    MarkCuts(s);
  }

  /** The bytes the records take with every owner written out. */
  function FullSize(rs: seq<Rr>): nat {
    if rs == [] then 0 else FullSize(rs[..|rs| - 1]) + WireLen(rs[|rs| - 1].owner) + 10 + |rs[|rs| - 1].rdata|
  }

  lemma {:induction false} SizePrefix(rs: seq<Rr>, i: nat)
    requires i <= |rs|
    ensures FullSize(rs[..i]) <= FullSize(rs)
    decreases |rs|
  {
    hide WireLen;
    if i < |rs| {
      SizePrefix(rs[..|rs| - 1], i);
      assert rs[..|rs| - 1][..i] == rs[..i];
    } else {
      assert rs[..i] == rs;
    }
  }

  lemma {:induction false} SizeNone(rs: seq<Rr>)
    ensures FullSize(rs[..0]) == 0
  {
  }

  lemma {:induction false} SizeStep(rs: seq<Rr>, i: nat)
    requires i < |rs|
    ensures FullSize(rs[..i + 1]) == FullSize(rs[..i]) + WireLen(rs[i].owner) + 10 + |rs[i].rdata|
    ensures FullSize(rs[..i + 1]) <= FullSize(rs)
  {
    hide WireLen;
    assert rs[..i + 1][..i] == rs[..i];
    SizePrefix(rs, i + 1);
  }

  lemma {:induction false} SizeConcat(a: seq<Rr>, b: seq<Rr>)
    ensures FullSize(a + b) == FullSize(a) + FullSize(b)
    decreases |b|
  {
    hide WireLen;
    if b == [] {
      assert a + b == a;
    } else {
      var c := b[..|b| - 1];
      SizeConcat(a, c);
      assert (a + b)[..|a + b| - 1] == a + c;
    }
  }

  /** What holds of the builder while records are being appended. */
  ghost predicate Composing(b: Bld, qend: nat, slots: seq<Slot>, rrs: seq<Rr>)
    reads b, b.buf
  {
    && b.Valid() && !b.overflow && HDR_LEN <= qend <= b.len && b.buf.Length <= MAX_MSG
    && Laid(b.State().msg, b.foot, qend, slots, rrs) && b.len == End(qend, slots, |slots|)
    && TtlsAt(slots, rrs, b.ttlCap, b.ttlOff, b.ttlVal)
    && 11 * |slots| <= b.len
  }

  /** The loop over the records of one section. */
  method AppendSection(b: Bld, rs: seq<Rr>, section: nat, ghost qend: nat, ghost slots0: seq<Slot>, ghost rrs0: seq<Rr>)
    returns (ok: bool, ghost slots: seq<Slot>)
    requires Composing(b, qend, slots0, rrs0) && section <= 2 && b.counts[section + 1] == 0
    requires forall i :: 0 <= i < |rs| ==> RrOk(rs[i])
    modifies b, b.buf
    ensures b.Valid()
    ensures ok ==> Composing(b, qend, slots, rrs0 + rs) && slots0 <= slots && Behind(old(b.State()), b.State())
    ensures ok ==> b.counts == old(b.counts)[section + 1 := |rs|] && |rs| <= 0xFFFF
    ensures ok ==> b.len <= old(b.len) + FullSize(rs)
    ensures !ok ==> old(b.len) + FullSize(rs) > b.buf.Length
  {
    hide SnapOk, Composing, RrOk, Behind, WireLen, FullSize;
    ComposingValid(b, qend, slots0, rrs0);
    ghost var s := b.State();
    BehindSelf(s);
    slots, ok := slots0, true;
    assert rrs0 + rs[..0] == rrs0;
    SizeNone(rs);
    var i := 0;
    while i < |rs|
      invariant i <= |rs| && |slots| == |slots0| + i && slots0 <= slots
      invariant Composing(b, qend, slots, rrs0 + rs[..i]) && b.Valid() && Behind(s, b.State())
      invariant b.counts == old(b.counts)[section + 1 := i]
      invariant b.len <= old(b.len) + FullSize(rs[..i])
    {
      SizeStep(rs, i);
      ghost var s1 := b.State();
      ComposingValid(b, qend, slots, rrs0 + rs[..i]);
      ok, slots := AppendNext(b, rs[i], section, qend, slots, rrs0 + rs[..i]);
      if !ok {
        return;
      }
      BehindTrans(s, s1, b.State());
      assert rrs0 + rs[..i + 1] == rrs0 + rs[..i] + [rs[i]];
      i := i + 1;
    }
    assert rs[..|rs|] == rs;
    ComposingValid(b, qend, slots, rrs0 + rs);
  }

  lemma {:induction false} ComposingValid(b: Bld, qend: nat, slots: seq<Slot>, rrs: seq<Rr>)
    requires Composing(b, qend, slots, rrs)
    ensures b.Valid() && |slots| < 0xFFFF
  {
    hide SnapOk, Laid;
  }

  method AppendNext(b: Bld, rr: Rr, section: nat, ghost qend: nat, ghost slots0: seq<Slot>, ghost rrs: seq<Rr>)
    returns (ok: bool, ghost slots: seq<Slot>)
    requires Composing(b, qend, slots0, rrs) && RrOk(rr) && section <= 2 && b.counts[section + 1] < 0xFFFF
    modifies b, b.buf
    ensures b.Valid()
    ensures b.counts == (if ok then old(b.counts)[section + 1 := old(b.counts)[section + 1] + 1] else old(b.counts))
    ensures ok ==> slots0 <= slots && |slots| == |slots0| + 1 && Composing(b, qend, slots, rrs + [rr])
    ensures ok ==> Behind(old(b.State()), b.State())
    ensures ok ==> b.len <= old(b.len) + WireLen(rr.owner) + 10 + |rr.rdata|
    ensures !ok ==> old(b.len) + WireLen(rr.owner) + 10 + |rr.rdata| > b.buf.Length
  {
    hide SnapOk, Laid, RecAt, RrOk, Behind, WireLen, NameCost;
    ghost var s := b.State();
    ghost var sl;
    slots := slots0;
    CostWithin(b.ctab, rr.owner);
    ok, sl := AppendRecord(b, rr, section);
    if ok {
      LaidMore(s, b.State(), qend, slots, rrs, sl, rr);
      slots := slots + [sl];
    }
  }

  // ---------------------------------------------------------------------------
  // The whole answer
  // ---------------------------------------------------------------------------

  datatype Question = Question(name: Name, qtype: nat, qclass: nat)
  datatype Answer = Answer(question: Question, ans: seq<Rr>, auth: seq<Rr>, add: seq<Rr>)
  datatype Composed = Composed(wire: seq<byte>, qend: nat, nsOff: nat, arOff: nat, ttlOff: seq<nat>, ttlVal: seq<nat>)

  /** The most records an answer can gather (src/dns/rrlist.c). */
  const RR_LIST_MAX: nat := 512

  /** The answer came out of a record list, which refuses more than its limit. */
  predicate WithinList(a: Answer) {
    |AllRrs(a)| <= RR_LIST_MAX
  }

  predicate AnswerOk(a: Answer) {
    && NameOk(a.question.name) && a.question.qtype < 0x1_0000 && a.question.qclass < 0x1_0000
    && (forall i :: 0 <= i < |a.ans| ==> RrOk(a.ans[i]))
    && (forall i :: 0 <= i < |a.auth| ==> RrOk(a.auth[i]))
    && (forall i :: 0 <= i < |a.add| ==> RrOk(a.add[i]))
  }

  function QuestionBytes(q: Question): seq<byte> {
    Encoded(q.name, |q.name|, 0) + (Be16(q.qtype) + Be16(q.qclass))
  }

  function AllRrs(a: Answer): seq<Rr> {
    a.ans + a.auth + a.add
  }

  /** A message for the answer: question, then every record in its slot, the section offsets and the TTLs. */
  ghost predicate ComposedOk(c: Composed, f: Foot, slots: seq<Slot>, a: Answer) {
    && HDR_LEN <= c.qend <= |c.wire| <= MAX_MSG && c.qend == HDR_LEN + |QuestionBytes(a.question)|
    && FootIn(f, |c.wire|) && c.wire[HDR_LEN..c.qend] == QuestionBytes(a.question)
    && (forall i :: i in f.ptrs ==> i >= c.qend)
    && (forall i :: i in f.lits && i < c.qend ==> i < c.qend - 4)
    && Laid(c.wire, f, c.qend, slots, AllRrs(a)) && End(c.qend, slots, |slots|) == |c.wire|
    && c.nsOff == End(c.qend, slots, |a.ans|) && c.arOff == End(c.qend, slots, |a.ans| + |a.auth|)
    && Get16(c.wire, 6) == |a.ans| && Get16(c.wire, 8) == |a.auth| && Get16(c.wire, 10) == |a.add|
    && TtlsAt(slots, AllRrs(a), TTL_SLOTS, c.ttlOff, c.ttlVal)
  }

  /** Bytes in front of every name may change without any record noticing. */
  lemma {:induction false} RecPatched(msg: seq<byte>, f: Foot, msg': seq<byte>, sl: Slot, rr: Rr)
    requires RecAt(msg, f, sl, rr) && FootIn(f, |msg|) && HDR_LEN <= sl.start
    requires |msg'| == |msg| && HDR_LEN <= |msg| && msg'[HDR_LEN..] == msg[HDR_LEN..]
    ensures RecAt(msg', f, sl, rr)
  {
    hide DecTo, NameEnd, Fixed, RrOk;
    var e := sl.next;
    assert forall i :: HDR_LEN <= i < |msg| ==> msg'[i] == msg[i] by {
      forall i | HDR_LEN <= i < |msg|
        ensures msg'[i] == msg[i]
      {
        assert msg'[HDR_LEN..][i - HDR_LEN] == msg[HDR_LEN..][i - HDR_LEN];
      }
    }
    assert SameNames(msg[..e], Cut(f, e), msg'[..e]);
    DecToFrame(msg[..e], Cut(f, e), msg'[..e], Cut(f, e), sl.start, rr.owner, |rr.owner|);
    assert msg'[sl.mid..e] == msg[sl.mid..e];
  }

  lemma {:induction false} StartsLate(msg: seq<byte>, f: Foot, qend: nat, slots: seq<Slot>, rrs: seq<Rr>, i: nat)
    requires Laid(msg, f, qend, slots, rrs) && i <= |slots|
    ensures End(qend, slots, i) >= qend + 11 * i
    decreases i
  {
    hide RecAt;
    if i > 0 {
      StartsLate(msg, f, qend, slots, rrs, i - 1);
      RecLen(msg, f, slots[i - 1], rrs[i - 1]);
    }
  }

  lemma {:induction false} RecLen(msg: seq<byte>, f: Foot, sl: Slot, rr: Rr)
    requires RecAt(msg, f, sl, rr)
    ensures sl.start < sl.mid && sl.mid + 10 + |rr.rdata| == sl.next <= |msg|
  {
  }

  lemma {:induction false} LaidPatched(msg: seq<byte>, f: Foot, msg': seq<byte>, qend: nat, slots: seq<Slot>,
                                       rrs: seq<Rr>)
    requires Laid(msg, f, qend, slots, rrs) && FootIn(f, |msg|) && HDR_LEN <= qend
    requires |msg'| == |msg| && HDR_LEN <= |msg| && msg'[HDR_LEN..] == msg[HDR_LEN..]
    ensures Laid(msg', f, qend, slots, rrs)
  {
    hide RecAt, FootIn;
    forall i | 0 <= i < |slots|
      ensures RecAt(msg', f, slots[i], rrs[i])
    {
      StartsLate(msg, f, qend, slots, rrs, i);
      RecPatched(msg, f, msg', slots[i], rrs[i]);
    }
  }

  /** Header and question, ready for records. */
  method Begin(q: Question) returns (ok: bool, b: Bld)
    requires NameOk(q.name)
    ensures fresh(b) && fresh(b.buf) && b.Valid() && b.buf.Length == MAX_MSG
    ensures ok == (HDR_LEN + |QuestionBytes(q)| <= MAX_MSG)
    ensures ok ==> Composing(b, b.len, [], []) && b.ttlCap == TTL_SLOTS && b.counts == [1, 0, 0, 0]
    ensures ok ==> b.len == HDR_LEN + |QuestionBytes(q)| && b.State().msg[HDR_LEN..] == QuestionBytes(q)
    ensures ok ==> b.foot.ptrs == {} && forall i :: i in b.foot.lits ==> i < b.len - 4
  {
    hide SnapOk, NameOk, Encoded, Grew, WireLen, Lits;
    b := new Bld(MAX_MSG, true, TTL_SLOTS);
    ok := b.Header(0, 0x8080);
    if !ok {
      return;
    }
    ghost var s := b.State();
    QuestionWire(q.name);
    ok := b.Question(q.name, q.qtype, q.qclass);
    if !ok {
      return;
    }
    assert b.State().msg == s.msg + QuestionBytes(q);
    assert b.State().msg[HDR_LEN..] == QuestionBytes(q);
  }

  lemma {:induction false} QuestionWire(n: Name)
    ensures |Encoded(n, |n|, 0)| == WireLen(n) == |Lits(n, |n|)| + 1
  {
    WireIsLits(n);
  }

  lemma {:induction false} ComposingEnd(b: Bld, qend: nat, slots: seq<Slot>, rrs: seq<Rr>)
    requires Composing(b, qend, slots, rrs)
    ensures b.Valid() && |slots| == |rrs| && b.len == End(qend, slots, |slots|) && HDR_LEN <= qend <= b.len <= MAX_MSG
    ensures Laid(b.State().msg, b.foot, qend, slots, rrs) && TtlsAt(slots, rrs, b.ttlCap, b.ttlOff, b.ttlVal)
  {
    hide SnapOk, RecAt;
  }

  /** The counts go where the reader looks for them, and nothing else moves. */
  lemma {:induction false} CountsIn(m: seq<byte>, c: seq<nat>, m': seq<byte>)
    requires |c| == 4 && c[1] < 0x1_0000 && c[2] < 0x1_0000 && c[3] < 0x1_0000 && HDR_LEN <= |m|
    requires m' == m[..4] + (Be16(c[0]) + Be16(c[1]) + Be16(c[2]) + Be16(c[3])) + m[HDR_LEN..]
    ensures |m'| == |m| && m'[HDR_LEN..] == m[HDR_LEN..]
    ensures Get16(m', 6) == c[1] && Get16(m', 8) == c[2] && Get16(m', 10) == c[3]
  {
    assert m'[6..8] == Be16(c[1]) && m'[8..10] == Be16(c[2]) && m'[10..12] == Be16(c[3]);
    Be16Back(c[1], m', 6);
    Be16Back(c[2], m', 8);
    Be16Back(c[3], m', 10);
  }

  lemma {:induction false} ComposedDone(s0: Snap, s: Snap, c: Composed, slots: seq<Slot>, a: Answer, counts: seq<nat>)
    requires SnapOk(s) && Behind(s0, s) && |s0.msg| == c.qend == HDR_LEN + |QuestionBytes(a.question)|
    requires s0.msg[HDR_LEN..] == QuestionBytes(a.question)
    requires s0.foot.ptrs == {} && forall i :: i in s0.foot.lits ==> i < c.qend - 4
    requires Laid(s.msg, s.foot, c.qend, slots, AllRrs(a)) && End(c.qend, slots, |slots|) == |s.msg| <= MAX_MSG
    requires |counts| == 4 && counts[1..] == [|a.ans|, |a.auth|, |a.add|] && |a.ans| <= 0xFFFF && |a.auth| <= 0xFFFF
    requires |a.add| <= 0xFFFF
    requires c.wire ==
      s.msg[..4] + (Be16(counts[0]) + Be16(counts[1]) + Be16(counts[2]) + Be16(counts[3])) + s.msg[HDR_LEN..]
    requires c.nsOff == End(c.qend, slots, |a.ans|) && c.arOff == End(c.qend, slots, |a.ans| + |a.auth|)
    requires TtlsAt(slots, AllRrs(a), TTL_SLOTS, c.ttlOff, c.ttlVal)
    ensures ComposedOk(c, s.foot, slots, a)
  {
    hide EntryOk, WrittenOk, Laid, QuestionBytes, Be16, Get16, TtlsAt;
    assert counts[1] == counts[1..][0] && counts[2] == counts[1..][1] && counts[3] == counts[1..][2];
    CountsIn(s.msg, counts, c.wire);
    LaidPatched(s.msg, s.foot, c.wire, c.qend, slots, AllRrs(a));
    assert c.wire[HDR_LEN..c.qend] == c.wire[HDR_LEN..][..c.qend - HDR_LEN];
    assert s.msg[HDR_LEN..][..c.qend - HDR_LEN] == s0.msg[HDR_LEN..];
    forall i | i in s.foot.ptrs
      ensures i >= c.qend
    {
      assert i < c.qend ==> i in Cut(s.foot, c.qend).ptrs;
    }
    forall i | i in s.foot.lits && i < c.qend
      ensures i < c.qend - 4
    {
      assert i in Cut(s.foot, c.qend).lits;
    }
  }

  /** The message for an answer; there is one whenever the answer would fit without compression. */
  method Compose(a: Answer) returns (r: Option<Composed>, ghost f: Foot, ghost slots: seq<Slot>)
    requires AnswerOk(a)
    ensures r.Some? ==> ComposedOk(r.value, f, slots, a)
    ensures r.None? ==> HDR_LEN + |QuestionBytes(a.question)| + FullSize(AllRrs(a)) > MAX_MSG
  {
    hide FullSize;
    SizeConcat(a.ans, a.auth);
    SizeConcat(a.ans + a.auth, a.add);
    hide SnapOk, NameOk, RrOk, Composing, QuestionBytes, ComposedOk, Laid, TtlsAt, Behind, Grew;
    f, slots := Foot({}, {}), [];
    var ok, b := Begin(a.question);
    if !ok {
      return None, f, slots;
    }
    var qend := b.len;
    ghost var s0 := b.State();
    ok, slots := AppendSection(b, a.ans, 0, qend, [], []);
    if !ok {
      return None, f, slots;
    }
    assert [] + a.ans == a.ans;
    ComposingEnd(b, qend, slots, a.ans);
    var nsOff := b.len;
    ghost var slots1, s1 := slots, b.State();
    ok, slots := AppendSection(b, a.auth, 1, qend, slots, a.ans);
    if !ok {
      return None, f, slots;
    }
    ComposingEnd(b, qend, slots, a.ans + a.auth);
    var arOff := b.len;
    ghost var slots2, s2 := slots, b.State();
    ok, slots := AppendSection(b, a.add, 2, qend, slots, a.ans + a.auth);
    if !ok {
      return None, f, slots;
    }
    ghost var s3 := b.State();
    BehindTrans(s0, s1, s2);
    BehindTrans(s0, s2, s3);
    ComposingEnd(b, qend, slots, AllRrs(a));
    b.Finish();
    f := b.foot;
    r := Some(Composed(b.buf[..b.len], qend, nsOff, arOff, b.ttlOff, b.ttlVal));
    ComposedDone(s0, s3, r.value, slots, a, b.counts);
  }
}
