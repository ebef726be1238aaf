/**
 An answer from the resolver to the client: composed (src/resolver/resolver.c), stored and
 served (src/cache/mcache.c), and read with the parsers of src/dns/name.c and src/dns/msg.c.
 */
module AnswerPath {
  import opened Words
  import opened Bytes
  import opened Names
  import opened WireParse
  import opened Builder
  import opened Records
  import opened Mcache

  /** At off stands a question for q, up to case, which ends at end. */
  ghost predicate QuestionAt(out: seq<byte>, off: nat, q: Question, end: nat) {
    && ParseName(out, off, off, 0, 0, 0).Some? && Canon(ParseName(out, off, off, 0, 0, 0).value) == Canon(q.name)
    && NameEnd(out, off) + 4 == end <= |out|
    && Get16(out, end - 4) == q.qtype && Get16(out, end - 2) == q.qclass
  }

  /**
   out is a reply to q: id, one question, and the first records of rrs, their TTLs decayed,
   as many as its counts say.
   */
  ghost predicate Replies(out: seq<byte>, id: nat, q: Question, rrs: seq<Rr>, elapsed: nat, staleTtl: nat) {
    && HDR_LEN <= |out| && Get16(out, 0) == id && Get16(out, 4) == 1
    && var qend := HDR_LEN + WireLen(q.name) + 4;
       && QuestionAt(out, HDR_LEN, q, qend)
       && ReadsDecayed(out, qend, rrs, Get16(out, 6) + Get16(out, 8) + Get16(out, 10), elapsed, staleTtl, |out|)
  }

  // A name written out, in any case, parses to that name up to case.
  lemma {:induction false} PlainNameReads(out: seq<byte>, off: nat, n: Name, w: seq<byte>)
    requires NameOk(n) && Holds(out, off, w) && EqCi(w, Encoded(n, |n|, 0))
    ensures ParseName(out, off, off, 0, 0, 0).Some? && Canon(ParseName(out, off, off, 0, 0, 0).value) == Canon(n)
    ensures NameEnd(out, off) == off + |w| == off + WireLen(n)
  {
    hide ParseName, Canon, NameOk, WireLen, Dec;
    var e := Encoded(n, |n|, 0);
    var msg := out[..off] + e + out[off + |e|..];
    var f := Foot(Span(off, off + |e|), {});
    QuestionWire(n);
    PlainDec(msg, f, off, n, e);
    assert SameNamesCi(msg, f, out) by {
      SpelledSame(msg, f, out, off, e, w);
    }
    var d := DecFold(msg, f, out, off, off, n, 0);
    CanonSameOk(n, d);
    LabelCount(d) by { NameLabels(d); }
    DecParses(out, f, off, off, d, 0, 0, 0, 0) by { NameLabels(d); }
  }

  lemma {:induction false} NameLabels(n: Name)
    requires NameOk(n)
    ensures (forall i :: 0 <= i < |n| ==> LabelOk(n[i])) && WireLen(n) <= MAX_NAME
  {
  }

  lemma {:induction false} PlainDec(msg: seq<byte>, f: Foot, off: nat, n: Name, e: seq<byte>)
    requires NameOk(n) && e == Encoded(n, |n|, 0) && off + |e| <= |msg| && msg[off..off + |e|] == e
    requires f.lits == Span(off, off + |e|)
    ensures Dec(msg, f, off, off, n, 0) && NameEnd(msg, off) == off + |e|
  {
    hide Dec, NameEnd, Lits, WireLen;
    var k := |Lits(n, |n|)|;
    HoldsConcat(msg, off, Lits(n, |n|), [0]);
    assert msg[off + k] == msg[off + k..off + k + 1][0];
    DecRoot(msg, f, off + k, off, 0);
    DecLits(msg, f, off, off, n, |n|, [], 0);
    assert n[..|n|] + [] == n;
  }

  lemma {:induction false} SpelledSame(msg: seq<byte>, f: Foot, out: seq<byte>, off: nat, e: seq<byte>, w: seq<byte>)
    requires off + |e| <= |out| && msg == out[..off] + e + out[off + |e|..] && Holds(out, off, w) && EqCi(w, e)
    requires f == Foot(Span(off, off + |e|), {})
    ensures SameNamesCi(msg, f, out)
  {
    forall i | i in f.lits
      ensures Lower(out[i]) == Lower(msg[i])
    {
      assert out[i] == out[off..off + |w|][i - off];
      assert Fold(w)[i - off] == Fold(e)[i - off];
    }
  }

  /** The question of a served message reads back as the one that was asked, spelt as the client spelt it. */
  lemma {:induction false} ServedQuestion(m: Ment, c: Composed, a: Answer, p: Plan, id: nat, base: bv16,
                                          qname: seq<byte>,
                                          elapsed: nat, staleTtl: nat)
    requires StoredFrom(m, c, a) && AnswerOk(a) && SameQuestion(qname, a.question) && p.cut <= |m.blob|
    ensures QuestionAt(ServedBytes(m, p, id, base, qname, elapsed, staleTtl), HDR_LEN, a.question,
                       HDR_LEN + WireLen(a.question.name) + 4)
  {
    hide HeaderBytes, PatchFrom, Flags, RrOk, Usable, Encoded, WireLen, NameOk, ParseName, NameEnd, Canon;
    var q := a.question;
    var t := Be16(q.qtype) + Be16(q.qclass);
    var h := HeaderBytes(id, Flags(m, base, p.truncated), p);
    var body := PatchFrom(m.blob[..p.cut], m.ttls, 0, elapsed, staleTtl);
    var out := ServedBytes(m, p, id, base, qname, elapsed, staleTtl);
    assert out == h + (qname + t) + body;
    assert out[HDR_LEN..HDR_LEN + |qname|] == qname;
    PlainNameReads(out, HDR_LEN, q.name, qname);
    var e := HDR_LEN + |qname|;
    assert out[e..e + 2] == Be16(q.qtype) && out[e + 2..e + 4] == Be16(q.qclass);
    Be16Back(q.qtype, out, e);
    Be16Back(q.qclass, out, e + 2);
  }

  // The parts of a reply, put together.
  lemma {:induction false} ServedReplies(m: Ment, c: Composed, f: Foot, slots: seq<Slot>, a: Answer, budget: nat,
                                         outcap: nat,
                                         id: nat, base: bv16, qname: seq<byte>, elapsed: nat, staleTtl: nat)
    requires ComposedOk(c, f, slots, a) && StoredFrom(m, c, a) && AnswerOk(a) && WithinList(a)
    requires SameQuestion(qname, a.question) && staleTtl < W32 && id < 0x1_0000
    ensures MentOk(m)
    ensures Replies(ServedBytes(m, Choose(m, budget, outcap), id, base, qname, elapsed, staleTtl), id, a.question,
                    AllRrs(a), elapsed, staleTtl)
  {
    hide StoredFrom, AnswerOk, WithinList, SameQuestion, Choose, ServedBytes, ReadsDecayed, QuestionAt, Get16, Laid;
    hide TtlsAt;
    assert c.qend == HDR_LEN + WireLen(a.question.name) + 4 by {
      QuestionWire(a.question.name);
    }
    hide ComposedOk;
    ServedDecayed(m, c, f, slots, a, budget, outcap, id, base, qname, elapsed, staleTtl);
    var p := Choose(m, budget, outcap);
    ServedHeader(m, c, a, budget, outcap, id, base, qname, elapsed, staleTtl);
    ServedQuestion(m, c, a, p, id, base, qname, elapsed, staleTtl);
  }

  /**
   The whole way: an answer within the record list is composed and stored whenever it fits in a
   message without compression, and when it is asked for again, in any spelling and within any
   budget, what lies in the client's buffer reads back as a reply to that question from that
   answer.  Nothing is served exactly when nothing is stored, the answer is another network's,
   it is too stale, or the buffer does not hold header and question.
   */
  method StoreAndServe(a: Answer, dnssecOk: bool, rcode: bv16, flags: bv16, ttl: nat, storedAt: nat, local: bool,
                       sharedOnly: bool, id: nat, qname: seq<byte>, base: bv16, budget: nat, serveStale: nat,
                       staleTtl: nat, pct: nat, now: nat, out: array<byte>)
    returns (r: Option<Info>, m: Option<Ment>, ghost len: nat)
    requires AnswerOk(a) && WithinList(a) && ttl > 0 && SameQuestion(qname, a.question)
    requires id < 0x1_0000 && staleTtl < W32
    modifies out
    ensures m.None? ==> r.None? && HDR_LEN + |QuestionBytes(a.question)| + FullSize(AllRrs(a)) > MAX_MSG
    ensures m.Some? ==> m.value.ttl == ttl && m.value.stored == storedAt && m.value.local == local
    ensures m.Some? ==> (r.None? <==> (sharedOnly && local) || TooStale(m.value, now, serveStale)
                                      || out.Length < HDR_LEN + WireLen(a.question.name) + 4)
    ensures r.Some? ==> len <= out.Length && m.Some?
    ensures r.Some? ==> Replies(out[..len], id, a.question, AllRrs(a), Mcache.Elapsed(m.value, now), staleTtl)
  {
    hide AnswerOk, WithinList, FullSize, QuestionBytes, ComposedOk, Choose, ServedBytes, Replies, WireLen, TooStale;
    hide Encoded;
    ghost var c, f, slots;
    m, c, f, slots := StoreAnswer(a, dnssecOk, rcode, flags, ttl, storedAt, local);
    r, len := None, 0;
    if m.None? {
      return;
    }
    var e := new Entry(m.value);
    assert HdrLen(m.value) == HDR_LEN + |qname| + 4 && |qname| == WireLen(a.question.name) by {
      KeyLen(m.value, c, f, slots, a, qname);
    }
    r := e.Serve(sharedOnly, id, qname, base, budget, serveStale, staleTtl, pct, now, out);
    if r.Some? {
      len := HdrLen(m.value) + r.value.plan.cut;
      ServedReplies(m.value, c, f, slots, a, budget, out.Length, id, base, qname, Mcache.Elapsed(m.value, now),
          staleTtl);
    }
  }

  lemma {:induction false} KeyLen(m: Ment, c: Composed, f: Foot, slots: seq<Slot>, a: Answer, qname: seq<byte>)
    requires ComposedOk(c, f, slots, a) && StoredFrom(m, c, a) && SameQuestion(qname, a.question)
    ensures |qname| == WireLen(a.question.name) && HdrLen(m) == HDR_LEN + |qname| + 4 && |qname| == m.key.qnamelen
  {
    hide Laid, TtlsAt, Usable, Get16, WireLen, Lits;
    QuestionWire(a.question.name);
  }
}
