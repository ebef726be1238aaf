/**
 The prebuilt-message cache (src/cache/mcache.c): a composed answer is kept as bytes, and
 served again by copying a prefix of them and rewriting the TTLs.
 */
module Mcache {
  import opened Words
  import opened Bytes
  import opened Names
  import opened WireParse
  import opened Builder
  import opened Records

  // ---------------------------------------------------------------------------
  // Storing
  // ---------------------------------------------------------------------------

  datatype Key = Key(qnamelen: nat, qtype: nat, qclass: nat, dnssecOk: bool)

  /** A TTL's offset in the blob, and its value when the message was made. */
  datatype Ttl = Ttl(off: nat, val: nat)

  /** The part of an entry that never changes; offsets are relative to the blob. */
  datatype Ment = Ment(
    key: Key, rcode: bv16, flags: bv16, ancount: nat, nscount: nat, arcount: nat,
    stored: nat, ttl: nat, ttls: seq<Ttl>, blob: seq<byte>, nsOff: nat, arOff: nat, local: bool)

  datatype Outcome = Refused | Skipped | Kept(m: Ment)

  /** Of the first n TTLs the usable ones: inside the blob, and not going backwards. */
  function Usable(off: seq<nat>, val: seq<nat>, qend: nat, bloblen: nat, n: nat): (k: seq<Ttl>)
    requires n <= |off| == |val|
    ensures |k| <= n
  {
    if n == 0 then []
    else
      var k, o := Usable(off, val, qend, bloblen, n - 1), off[n - 1];
      if o < qend || o - qend + 4 > bloblen || (|k| > 0 && o - qend < k[|k| - 1].off) then k
      else k + [Ttl(o - qend, val[n - 1])]
  }

  /** The counting pass: the entry is sized before it is filled. */
  method CountTtls(off: seq<nat>, ghost val: seq<nat>, qend: nat, bloblen: nat) returns (kept: nat)
    requires |off| == |val|
    ensures kept == |Usable(off, val, qend, bloblen, |off|)|
  {
    var prev := 0;
    kept := 0;
    for i := 0 to |off|
      invariant var k := Usable(off, val, qend, bloblen, i); kept == |k| && (kept > 0 ==> prev == k[kept - 1].off)
    {
      if off[i] < qend {
        continue;
      }
      var rel := off[i] - qend;
      if rel + 4 > bloblen {
        continue;
      }
      if kept > 0 && rel < prev {
        continue;
      }
      prev := rel;
      kept := kept + 1;
    }
  }

  /** The filling pass keeps exactly what was counted. */
  method FillTtls(off: seq<nat>, val: seq<nat>, qend: nat, bloblen: nat) returns (ttls: seq<Ttl>)
    requires |val| == |off|
    ensures ttls == Usable(off, val, qend, bloblen, |off|)
  {
    ttls := [];
    var prev := 0;
    for i := 0 to |off|
      invariant ttls == Usable(off, val, qend, bloblen, i)
      invariant |ttls| > 0 ==> prev == ttls[|ttls| - 1].off
    {
      if off[i] < qend {
        continue;
      }
      var rel := off[i] - qend;
      if rel + 4 > bloblen {
        continue;
      }
      if |ttls| > 0 && rel < prev {
        continue;
      }
      prev := rel;
      ttls := ttls + [Ttl(rel, val[i])];
    }
  }

  function Least(a: nat, b: nat): nat {
    if a < b then a else b
  }

  /** A section offset made relative: past the blob means there is nothing of it. */
  function Section(off: nat, qend: nat, bloblen: nat): nat {
    if off >= qend then Least(off - qend, bloblen) else bloblen
  }

  /** elpis_mcache_store, up to handing the entry to the table. */
  method Store(k: Key, c: Composed, rcode: bv16, flags: bv16, ttl: nat, now: nat, local: bool) returns (r: Outcome)
    requires |c.ttlOff| == |c.ttlVal|
    ensures r.Refused?
      <==> |c.wire| < c.qend || c.qend < HDR_LEN || k.qnamelen == 0 || (ttl > 0 && |c.wire| - c.qend > MAX_MSG)
    ensures r.Skipped? ==> ttl == 0
    ensures r.Kept? ==> ttl > 0 && var m := r.m; var bl := |c.wire| - c.qend;
      && m.key == k && m.rcode == rcode && m.flags == flags && m.stored == now && m.ttl == ttl && m.local == local
      && m.blob == c.wire[c.qend..] && m.ttls == Usable(c.ttlOff, c.ttlVal, c.qend, bl, |c.ttlOff|)
      && m.ancount == Get16(c.wire, 6) && m.nscount == Get16(c.wire, 8) && m.arcount == Get16(c.wire, 10)
      && m.nsOff == Section(c.nsOff, c.qend, bl) && m.nsOff <= m.arOff <= bl
      && (m.nsOff <= Section(c.arOff, c.qend, bl) ==> m.arOff == Section(c.arOff, c.qend, bl))
  {
    hide Usable, Get16;
    if |c.wire| < c.qend || c.qend < HDR_LEN || k.qnamelen == 0 {
      return Refused;
    }
    if ttl == 0 {
      return Skipped;
    }
    var bl := |c.wire| - c.qend;
    if bl > MAX_MSG {
      return Refused;
    }
    var kept := CountTtls(c.ttlOff, c.ttlVal, c.qend, bl);
    var ttls := FillTtls(c.ttlOff, c.ttlVal, c.qend, bl);
    assert |ttls| == kept;
    var nsOff := if c.nsOff >= c.qend then c.nsOff - c.qend else bl;
    var arOff := if c.arOff >= c.qend then c.arOff - c.qend else bl;
    if nsOff > bl {
      nsOff := bl;
    }
    if arOff > bl {
      arOff := bl;
    }
    if arOff < nsOff {
      arOff := nsOff;
    }
    return Kept(Ment(k, rcode, flags, Get16(c.wire, 6), Get16(c.wire, 8), Get16(c.wire, 10),
                     now, ttl, ttls, c.wire[c.qend..], nsOff, arOff, local));
  }

  // ---------------------------------------------------------------------------
  // What to keep of the message
  // ---------------------------------------------------------------------------

  /** How much of the blob goes out, and the counts and flags that go with it. */
  datatype Plan = Plan(cut: nat, an: nat, ns: nat, ar: nat, droppedAr: bool, droppedNs: bool, truncated: bool)

  predicate MentOk(m: Ment) {
    m.nsOff <= m.arOff <= |m.blob|
  }

  function HdrLen(m: Ment): nat {
    HDR_LEN + m.key.qnamelen + 4
  }

  predicate Fits(m: Ment, cut: nat, budget: nat, outcap: nat) {
    HdrLen(m) + cut <= budget && HdrLen(m) + cut <= outcap
  }

  /** Trimming from the tail: additional first, then authority, then everything. */
  function Choose(m: Ment, budget: nat, outcap: nat): (p: Plan)
    requires MentOk(m)
    ensures p.cut <= |m.blob|
  {
    if Fits(m, |m.blob|, budget, outcap) then
      Plan(|m.blob|, m.ancount, m.nscount, m.arcount, false, false, false)
    else if Fits(m, m.arOff, budget, outcap) then
      Plan(m.arOff, m.ancount, m.nscount, 0, true, false, false)
    else if m.key.dnssecOk then
      Plan(0, 0, 0, 0, true, false, true)
    else if Fits(m, m.nsOff, budget, outcap) then
      Plan(m.nsOff, m.ancount, 0, 0, true, true, false)
    else
      Plan(0, 0, 0, 0, true, true, true)
  }

  /**
   What goes out stays within the budget and the buffer unless header and question alone are
   over it; a later section goes before an earlier one; and a client that asked for DNSSEC
   loses the authority section only in a truncated message.
   */
  lemma {:induction false} ChooseFits(m: Ment, budget: nat, outcap: nat)
    requires MentOk(m) && HdrLen(m) <= outcap
    ensures var p := Choose(m, budget, outcap);
      && HdrLen(m) + p.cut <= outcap && (HdrLen(m) <= budget ==> HdrLen(m) + p.cut <= budget)
      && (p.truncated <==> !Fits(m, if m.key.dnssecOk then m.arOff else m.nsOff, budget, outcap))
      && (m.key.dnssecOk && p.ns != m.nscount ==> p.truncated)
      && (m.key.dnssecOk && !p.truncated ==> p.an == m.ancount && p.ns == m.nscount && p.cut >= m.arOff)
      && (!p.truncated ==> p.an == m.ancount && p.cut >= m.nsOff)
  {
  }

  // ---------------------------------------------------------------------------
  // Rewriting TTLs
  // ---------------------------------------------------------------------------

  /** A TTL after `elapsed` seconds; one that has run out is replaced by the stale TTL. */
  function Decayed(v: nat, elapsed: nat, staleTtl: nat): nat {
    if elapsed >= v then staleTtl else v - elapsed
  }

  function Overwrite(b: seq<byte>, o: nat, w: seq<byte>): (r: seq<byte>)
    requires o + |w| <= |b|
    ensures |r| == |b|
  {
    b[..o] + w + b[o + |w|..]
  }

  /** The patching loop from offset i on: it stops at the first TTL that was cut off. */
  function PatchFrom(b: seq<byte>, ttls: seq<Ttl>, i: nat, elapsed: nat, staleTtl: nat): (r: seq<byte>)
    requires i <= |ttls|
    ensures |r| == |b|
    decreases |ttls| - i
  {
    if i == |ttls| || ttls[i].off + 4 > |b| then b
    else PatchFrom(Overwrite(b, ttls[i].off, Be32(Decayed(ttls[i].val, elapsed, staleTtl))), ttls, i + 1, elapsed,
        staleTtl)
  }

  ghost predicate Spaced(ttls: seq<Ttl>) {
    forall i, j :: 0 <= i < j < |ttls| ==> ttls[i].off + 4 <= ttls[j].off
  }

  ghost predicate InField(ttls: seq<Ttl>, i: nat, x: nat) {
    exists k :: i <= k < |ttls| && ttls[k].off <= x < ttls[k].off + 4
  }

  /** Bytes outside every TTL field are copied unchanged. */
  lemma {:induction false} PatchElsewhere(b: seq<byte>, ttls: seq<Ttl>, i: nat, elapsed: nat, staleTtl: nat, x: nat)
    requires i <= |ttls| && x < |b| && !InField(ttls, i, x)
    ensures PatchFrom(b, ttls, i, elapsed, staleTtl)[x] == b[x]
    decreases |ttls| - i
  {
    if i < |ttls| && ttls[i].off + 4 <= |b| {
      var w := Be32(Decayed(ttls[i].val, elapsed, staleTtl));
      PatchElsewhere(Overwrite(b, ttls[i].off, w), ttls, i + 1, elapsed, staleTtl, x);
    }
  }

  /** Each TTL field that is still there holds the decayed TTL. */
  lemma {:induction false} PatchField(b: seq<byte>, ttls: seq<Ttl>, i: nat, elapsed: nat, staleTtl: nat, k: nat)
    requires i <= k < |ttls| && Spaced(ttls) && ttls[k].off + 4 <= |b|
    ensures Holds(PatchFrom(b, ttls, i, elapsed, staleTtl), ttls[k].off, Be32(Decayed(ttls[k].val, elapsed, staleTtl)))
    decreases |ttls| - i
  {
    var w := Be32(Decayed(ttls[i].val, elapsed, staleTtl));
    var b' := Overwrite(b, ttls[i].off, w);
    if i < k {
      PatchField(b', ttls, i + 1, elapsed, staleTtl, k);
    } else {
      var r := PatchFrom(b', ttls, i + 1, elapsed, staleTtl);
      hide PatchFrom, Be32;
      forall x | ttls[i].off <= x < ttls[i].off + 4
        ensures r[x] == b'[x]
      {
        PatchElsewhere(b', ttls, i + 1, elapsed, staleTtl, x);
      }
      assert r[ttls[i].off..ttls[i].off + 4] == w;
    }
  }

  // ---------------------------------------------------------------------------
  // Serving
  // ---------------------------------------------------------------------------

  /** Seconds since the entry was stored, by a 32-bit clock. */
  function Elapsed(m: Ment, now: nat): nat {
    (now - m.stored) % W32
  }

  function Remaining(m: Ment, now: nat): nat {
    if Elapsed(m, now) >= m.ttl then 0 else m.ttl - Elapsed(m, now)
  }

  predicate TooStale(m: Ment, now: nat, serveStale: nat) {
    Remaining(m, now) == 0 && Elapsed(m, now) > (m.ttl + serveStale) % W32
  }

  function Flags(m: Ment, base: bv16, truncated: bool): bv16 {
    (base & 0xFFF0) | (m.rcode & 0x000F) | (m.flags & 0x0020) | (if truncated then 0x0200 else 0)
  }

  function HeaderBytes(id: nat, flags: bv16, p: Plan): (h: seq<byte>)
    ensures |h| == HDR_LEN
  {
    (Be16(id) + Be16(flags as nat)) + (Be16(1) + Be16(p.an)) + (Be16(p.ns) + Be16(p.ar))
  }

  /** The message that goes out for the question as the client spelt it. */
  function ServedBytes(m: Ment, p: Plan, id: nat, base: bv16, qname: seq<byte>, elapsed: nat, staleTtl: nat): seq<byte>
    requires p.cut <= |m.blob|
  {
    HeaderBytes(id, Flags(m, base, p.truncated), p) + (qname + (Be16(m.key.qtype) + Be16(m.key.qclass)))
      + PatchFrom(m.blob[..p.cut], m.ttls, 0, elapsed, staleTtl)
  }

  /** How long to wait after a number of failed refreshes: a second, doubling up to a minute. */
  function Backoff(fails: nat): (w: nat)
    ensures 1 <= w <= 64
  {
    [1, 2, 4, 8, 16, 32, 64][Least(fails, 6)]
  }

  datatype Info = Info(plan: Plan, ttl: nat, stale: bool, wantPrefetch: bool)

  class Entry {
    const m: Ment
    var prefetchAt: nat
    var refresh: nat

    constructor (ment: Ment)
      ensures m == ment && prefetchAt == 0 && refresh == 0
    {
      m, prefetchAt, refresh := ment, 0, 0;
    }

    /** A refresh is due: the entry is near its end and the last refresh is long enough ago. */
    predicate RefreshDue(now: nat, pct: nat)
      reads this
    {
      && pct > 0 && m.ttl > 0 && Remaining(m, now) <= m.ttl * pct / 100 % W32
      && (now - prefetchAt) % W32 >= Backoff(refresh % 16)
    }

    /** Whether to ask for a refresh now; asking is remembered, so the next one waits. */
    method WantPrefetch(now: nat, pct: nat) returns (want: bool)
      modifies this`prefetchAt
      ensures want == old(RefreshDue(now, pct))
      ensures prefetchAt == if want then now else old(prefetchAt)
    {
      want := false;
      if pct > 0 && m.ttl > 0 {
        var threshold := m.ttl * pct / 100 % W32;
        var rem := Remaining(m, now);
        if rem == 0 || rem <= threshold {
          if (now - prefetchAt) % W32 >= Backoff(refresh % 16) {
            prefetchAt := now;
            want := true;
          }
        }
      }
    }

    function Out(budget: nat, outcap: nat, id: nat, base: bv16, qname: seq<byte>, now: nat, staleTtl: nat): seq<byte>
      requires MentOk(m)
    {
      ServedBytes(m, Choose(m, budget, outcap), id, base, qname, Elapsed(m, now), staleTtl)
    }

    /** elpis_mcache_serve, once the entry has been found. */
    method Serve(sharedOnly: bool, id: nat, qname: seq<byte>, base: bv16, budget: nat, serveStale: nat,
                 staleTtl: nat, pct: nat, now: nat, out: array<byte>) returns (r: Option<Info>)
      requires MentOk(m) && |qname| == m.key.qnamelen
      modifies this`prefetchAt, out
      ensures r.None? <==> (sharedOnly && m.local) || TooStale(m, now, serveStale) || out.Length < HdrLen(m)
      ensures r.None? ==> out[..] == old(out[..])
      ensures r.Some? ==> r.value.plan == Choose(m, budget, out.Length) && HdrLen(m) + r.value.plan.cut <= out.Length
      ensures r.Some? ==> out[..HdrLen(m) + r.value.plan.cut] == Out(budget, out.Length, id, base, qname, now, staleTtl)
      ensures r.Some? ==> r.value.ttl == Remaining(m, now) && r.value.stale == (Elapsed(m, now) >= m.ttl)
      ensures r.Some? ==> r.value.wantPrefetch == old(RefreshDue(now, pct))
      ensures prefetchAt == now || prefetchAt == old(prefetchAt)
      ensures r.Some? ==> prefetchAt == if r.value.wantPrefetch then now else old(prefetchAt)
    {
      hide PatchFrom, Flags, Be16, Choose;
      if sharedOnly && m.local {
        return None;
      }
      if TooStale(m, now, serveStale) {
        return None;
      }
      var want := WantPrefetch(now, pct);
      var hdrlen := HdrLen(m);
      if out.Length < hdrlen {
        return None;
      }
      var p := Choose(m, budget, out.Length);
      ChooseFits(m, budget, out.Length);
      var h := HeaderBytes(id, Flags(m, base, p.truncated), p) + (qname + (Be16(m.key.qtype) + Be16(m.key.qclass)));
      var body := m.blob[..p.cut];
      assert |h| == hdrlen by {
        HeadLen(m, p, id, base, qname);
      }
      forall i | 0 <= i < hdrlen {
        out[i] := h[i];
      }
      forall i | 0 <= i < p.cut {
        out[hdrlen + i] := body[i];
      }
      assert out[..hdrlen] == h && out[hdrlen..hdrlen + p.cut] == body;
      Patch(out, hdrlen, p.cut, Elapsed(m, now), staleTtl);
      assert out[..hdrlen + p.cut] == out[..hdrlen] + out[hdrlen..hdrlen + p.cut];
      r := Some(Info(p, Remaining(m, now), Remaining(m, now) == 0, want));
    }

    /** elpis_mcache_refresh_outcome: whether the entry is to be dropped. */
    method RefreshOutcome(denied: bool, confirm: nat) returns (drop: bool)
      modifies this`refresh
      ensures (refresh, drop) == Refreshed(old(refresh), denied, confirm)
    {
      var fails, nx := refresh % 16, refresh / 16;
      if fails < 15 {
        fails := fails + 1;
      }
      drop := false;
      if denied {
        nx := nx + 1;
        if nx >= confirm {
          drop := true;
        }
      } else {
        nx := 0;
      }
      if nx > 15 {
        nx := 15;
      }
      refresh := nx * 16 + fails;
    }

    /** The loop that rewrites the TTLs that survived the cut. */
    method Patch(out: array<byte>, at: nat, cut: nat, elapsed: nat, staleTtl: nat)
      requires at + cut <= out.Length
      modifies out
      ensures out[..at] == old(out[..at])
      ensures out[at..at + cut] == PatchFrom(old(out[at..at + cut]), m.ttls, 0, elapsed, staleTtl)
    {
      hide PatchFrom, Overwrite, Be32;
      var i := 0;
      ghost var b0 := out[at..at + cut];
      ghost var b := b0;
      while i < |m.ttls|
        invariant i <= |m.ttls| && out[..at] == old(out[..at]) && out[at..at + cut] == b && |b| == cut
        invariant PatchFrom(b, m.ttls, i, elapsed, staleTtl) == PatchFrom(b0, m.ttls, 0, elapsed, staleTtl)
      {
        PatchStep(b, m.ttls, i, elapsed, staleTtl);
        var o, v := m.ttls[i].off, m.ttls[i].val;
        if o + 4 > cut {
          return;
        }
        v := if elapsed >= v then staleTtl else v - elapsed;
        PutAt(out, at, cut, o, Be32(v));
        b := Overwrite(b, o, Be32(v));
        i := i + 1;
      }
      PatchStep(b, m.ttls, i, elapsed, staleTtl);
    }
  }

  lemma {:induction false} PatchStep(b: seq<byte>, ttls: seq<Ttl>, i: nat, elapsed: nat, staleTtl: nat)
    requires i <= |ttls|
    ensures i < |ttls| ==> |Be32(Decayed(ttls[i].val, elapsed, staleTtl))| == 4
    ensures PatchFrom(b, ttls, i, elapsed, staleTtl) ==
      if i == |ttls| || ttls[i].off + 4 > |b| then b
      else PatchFrom(Overwrite(b, ttls[i].off, Be32(Decayed(ttls[i].val, elapsed, staleTtl))), ttls, i + 1, elapsed,
          staleTtl)
  {
  }

  method PutAt(out: array<byte>, at: nat, cut: nat, o: nat, w: seq<byte>)
    requires at + cut <= out.Length && o + |w| <= cut
    modifies out
    ensures out[..at] == old(out[..at])
    ensures out[at..at + cut] == Overwrite(old(out[at..at + cut]), o, w)
  {
    forall i | 0 <= i < |w| {
      out[at + o + i] := w[i];
    }
  }

  lemma {:induction false} HeadLen(m: Ment, p: Plan, id: nat, base: bv16, qname: seq<byte>)
    requires |qname| == m.key.qnamelen
    ensures var question := qname + (Be16(m.key.qtype) + Be16(m.key.qclass));
      |HeaderBytes(id, Flags(m, base, p.truncated), p) + question| == HdrLen(m)
  {
  }

  /** A truncated message says so in its header. */
  lemma {:induction false} TruncationShown(m: Ment, base: bv16, truncated: bool)
    ensures truncated ==> Flags(m, base, truncated) & 0x0200 != 0
    ensures !truncated ==> Flags(m, base, truncated) & 0x0200 == base & 0x0200
    ensures Flags(m, base, truncated) & 0x000F == m.rcode & 0x000F
  {
  }

  // ---------------------------------------------------------------------------
  // What is served means what was stored
  // ---------------------------------------------------------------------------

  /** The entry made from a composed answer. */
  ghost predicate StoredFrom(m: Ment, c: Composed, a: Answer) {
    && c.qend <= |c.wire| && HDR_LEN <= |c.wire| && |c.ttlOff| == |c.ttlVal|
    && m.blob == c.wire[c.qend..] && HdrLen(m) == c.qend
    && m.key.qtype == a.question.qtype && m.key.qclass == a.question.qclass
    && m.ancount == Get16(c.wire, 6) && m.nscount == Get16(c.wire, 8) && m.arcount == Get16(c.wire, 10)
    && m.ttls == Usable(c.ttlOff, c.ttlVal, c.qend, |m.blob|, |c.ttlOff|)
    && m.nsOff == Section(c.nsOff, c.qend, |m.blob|)
    && (m.nsOff <= Section(c.arOff, c.qend, |m.blob|) ==> m.arOff == Section(c.arOff, c.qend, |m.blob|))
  }

  lemma {:induction false} SlotOrder(msg: seq<byte>, f: Foot, qend: nat, slots: seq<Slot>, rrs: seq<Rr>, i: nat, j: nat)
    requires Laid(msg, f, qend, slots, rrs) && i <= j <= |slots|
    ensures End(qend, slots, i) <= End(qend, slots, j)
    decreases j - i
  {
    hide RecAt;
    if i < j {
      SlotOrder(msg, f, qend, slots, rrs, i, j - 1);
      RecLen(msg, f, slots[j - 1], rrs[j - 1]);
    }
  }

  /** Slot i lies within [End(i), End(i + 1)), and its TTL field within it. */
  lemma {:induction false} SlotIn(msg: seq<byte>, f: Foot, qend: nat, slots: seq<Slot>, rrs: seq<Rr>, i: nat)
    requires Laid(msg, f, qend, slots, rrs) && i < |slots|
    ensures qend <= End(qend, slots, i) == slots[i].start < slots[i].mid
    ensures slots[i].mid + 10 + |rrs[i].rdata| == slots[i].next == End(qend, slots, i + 1) <= End(qend, slots, |slots|)
  {
    hide RecAt;
    SlotOrder(msg, f, qend, slots, rrs, 0, i);
    SlotOrder(msg, f, qend, slots, rrs, i + 1, |slots|);
    RecLen(msg, f, slots[i], rrs[i]);
  }

  ghost predicate InOrder(off: seq<nat>, qend: nat, bloblen: nat) {
    && (forall k :: 0 <= k < |off| ==> qend <= off[k] && off[k] - qend + 4 <= bloblen)
    && (forall j, k :: 0 <= j < k < |off| ==> off[j] <= off[k])
  }

  /** Offsets that are in order and inside the blob are all usable. */
  lemma {:induction false} AllUsable(off: seq<nat>, val: seq<nat>, qend: nat, bloblen: nat, n: nat)
    requires n <= |off| == |val| && InOrder(off, qend, bloblen)
    ensures var u := Usable(off, val, qend, bloblen, n);
      |u| == n && forall k :: 0 <= k < n ==> u[k] == Ttl(off[k] - qend, val[k])
    decreases n
  {
    if n > 0 {
      AllUsable(off, val, qend, bloblen, n - 1);
    }
  }

  /** The TTLs of an entry are those of its records, in order and apart from each other. */
  ghost predicate TtlsOf(ttls: seq<Ttl>, qend: nat, slots: seq<Slot>, rrs: seq<Rr>) {
    && |ttls| == Least(|slots|, TTL_SLOTS) && |slots| == |rrs|
    && forall k :: 0 <= k < |ttls| ==> qend <= slots[k].mid + 4 && ttls[k] == Ttl(slots[k].mid + 4 - qend, rrs[k].ttl)
  }

  lemma {:induction false} EntryTtls(m: Ment, c: Composed, f: Foot, slots: seq<Slot>, a: Answer)
    requires ComposedOk(c, f, slots, a) && StoredFrom(m, c, a)
    ensures TtlsOf(m.ttls, c.qend, slots, AllRrs(a)) && Spaced(m.ttls)
  {
    hide Laid, Usable, Get16, QuestionBytes, AllRrs;
    var rrs := AllRrs(a);
    assert |slots| == |rrs|;
    forall k | 0 <= k < |c.ttlOff|
      ensures c.qend <= slots[k].mid && slots[k].mid + 8 <= |c.wire|
    {
      SlotIn(c.wire, f, c.qend, slots, rrs, k);
    }
    forall i, j | 0 <= i < j < |c.ttlOff|
      ensures c.ttlOff[i] + 4 <= c.ttlOff[j]
    {
      SlotIn(c.wire, f, c.qend, slots, rrs, i);
      SlotIn(c.wire, f, c.qend, slots, rrs, j);
      SlotOrder(c.wire, f, c.qend, slots, rrs, i + 1, j);
    }
    AllUsable(c.ttlOff, c.ttlVal, c.qend, |m.blob|, |c.ttlOff|);
  }

  /** Whatever is kept ends where a record ends, and the counts say how many there are. */
  lemma {:induction false} CutAtBoundary(m: Ment, c: Composed, f: Foot, slots: seq<Slot>, a: Answer, budget: nat,
                                         outcap: nat)
    requires ComposedOk(c, f, slots, a) && StoredFrom(m, c, a)
    ensures MentOk(m) && var p := Choose(m, budget, outcap); var k := p.an + p.ns + p.ar;
      && k <= |slots| && c.qend + p.cut == End(c.qend, slots, k)
      && (p.an == |a.ans| || k == 0) && (p.ns == |a.auth| || (p.ns == 0 && p.ar == 0)) && (p.ar == |a.add| || p.ar == 0)
  {
    hide Laid, Usable, Get16, QuestionBytes, TtlsAt;
    var x, y := |a.ans|, |a.ans| + |a.auth|;
    assert |slots| == |AllRrs(a)| == y + |a.add| by {
      LaidSize(c.wire, f, c.qend, slots, AllRrs(a));
    }
    SlotOrder(c.wire, f, c.qend, slots, AllRrs(a), 0, x);
    SlotOrder(c.wire, f, c.qend, slots, AllRrs(a), x, y);
    SlotOrder(c.wire, f, c.qend, slots, AllRrs(a), y, |slots|);
  }

  lemma {:induction false} LaidSize(msg: seq<byte>, f: Foot, qend: nat, slots: seq<Slot>, rrs: seq<Rr>)
    requires Laid(msg, f, qend, slots, rrs)
    ensures |slots| == |rrs|
  {
  }

  /** out is a prefix of the stored message with the question respelt and the TTLs decayed. */
  ghost predicate Copied(out: seq<byte>, wire: seq<byte>, qend: nat, ttls: seq<Ttl>, elapsed: nat, staleTtl: nat) {
    && HDR_LEN + 4 <= qend <= |out| <= |wire|
    && (forall x :: HDR_LEN <= x < qend - 4 ==> Lower(out[x]) == Lower(wire[x]))
    && (forall x :: qend <= x < |out| && !InField(ttls, 0, x - qend) ==> out[x] == wire[x])
    && (forall k :: 0 <= k < |ttls| && qend + ttls[k].off + 4 <= |out| ==>
         Holds(out, qend + ttls[k].off, Be32(Decayed(ttls[k].val, elapsed, staleTtl))))
  }

  lemma {:induction false} TailAt(h: seq<byte>, b: seq<byte>, x: nat)
    requires |h| <= x < |h| + |b|
    ensures (h + b)[x] == b[x - |h|]
  {
  }

  lemma {:induction false} HoldsTail(h: seq<byte>, b: seq<byte>, o: nat, w: seq<byte>)
    requires Holds(b, o, w)
    ensures Holds(h + b, |h| + o, w)
  {
    assert (h + b)[|h| + o..|h| + o + |w|] == b[o..o + |w|];
  }

  /** Body part of Copied. */
  lemma {:induction false} BodyCopied(h: seq<byte>, wire: seq<byte>, qend: nat, cut: nat, ttls: seq<Ttl>,
                                      elapsed: nat, staleTtl: nat)
    requires |h| == qend && qend + cut <= |wire| && Spaced(ttls)
    ensures var out := h + PatchFrom(wire[qend..][..cut], ttls, 0, elapsed, staleTtl);
      && |out| == qend + cut
      && (forall x :: qend <= x < |out| && !InField(ttls, 0, x - qend) ==> out[x] == wire[x])
      && (forall k :: 0 <= k < |ttls| && qend + ttls[k].off + 4 <= |out| ==>
           Holds(out, qend + ttls[k].off, Be32(Decayed(ttls[k].val, elapsed, staleTtl))))
  {
    hide PatchFrom, InField, Be32, Holds, Spaced;
    var b := wire[qend..][..cut];
    var r := PatchFrom(b, ttls, 0, elapsed, staleTtl);
    var out := h + r;
    forall x | qend <= x < |out| && !InField(ttls, 0, x - qend)
      ensures out[x] == wire[x]
    {
      PatchElsewhere(b, ttls, 0, elapsed, staleTtl, x - qend);
      TailAt(h, r, x);
    }
    forall k | 0 <= k < |ttls| && qend + ttls[k].off + 4 <= |out|
      ensures Holds(out, qend + ttls[k].off, Be32(Decayed(ttls[k].val, elapsed, staleTtl)))
    {
      PatchField(b, ttls, 0, elapsed, staleTtl, k);
      HoldsTail(h, r, ttls[k].off, Be32(Decayed(ttls[k].val, elapsed, staleTtl)));
    }
  }

  /** The client's spelling of the question, up to case the one that was stored. */
  predicate SameQuestion(qname: seq<byte>, q: Question) {
    EqCi(qname, Encoded(q.name, |q.name|, 0))
  }

  lemma {:induction false} ServedCopied(m: Ment, c: Composed, f: Foot, slots: seq<Slot>, a: Answer, p: Plan, id: nat,
                                        base: bv16,
                                        qname: seq<byte>, elapsed: nat, staleTtl: nat)
    requires ComposedOk(c, f, slots, a) && StoredFrom(m, c, a) && SameQuestion(qname, a.question) && p.cut <= |m.blob|
    ensures Copied(ServedBytes(m, p, id, base, qname, elapsed, staleTtl), c.wire, c.qend, m.ttls, elapsed, staleTtl)
    ensures |ServedBytes(m, p, id, base, qname, elapsed, staleTtl)| == c.qend + p.cut
  {
    hide PatchFrom, InField, Be32, Be16, Holds, Spaced, Laid, Encoded, Fold, Flags, TtlsAt, Usable, Get16, Section;
    var q := Encoded(a.question.name, |a.question.name|, 0);
    var t := Be16(a.question.qtype) + Be16(a.question.qclass);
    var h := HeaderBytes(id, Flags(m, base, p.truncated), p) + (qname + t);
    EntryTtls(m, c, f, slots, a);
    assert |t| == 4 by {
      PairLen(a.question.qtype, a.question.qclass);
    }
    assert |qname| == |q|;
    BodyCopied(h, c.wire, c.qend, p.cut, m.ttls, elapsed, staleTtl);
    var out := ServedBytes(m, p, id, base, qname, elapsed, staleTtl);
    forall x | HDR_LEN <= x < c.qend - 4
      ensures Lower(out[x]) == Lower(c.wire[x])
    {
      assert out[x] == h[x] == qname[x - HDR_LEN];
      assert c.wire[x] == c.wire[HDR_LEN..c.qend][x - HDR_LEN] == q[x - HDR_LEN];
      assert Fold(qname)[x - HDR_LEN] == Fold(q)[x - HDR_LEN];
    }
  }

  lemma {:induction false} PairLen(x: nat, y: nat)
    ensures |Be16(x) + Be16(y)| == 4
  {
  }

  /** A byte inside slot i is in no TTL field but slot i's own. */
  lemma {:induction false} OnlyOwnField(wire: seq<byte>, f: Foot, qend: nat, slots: seq<Slot>, rrs: seq<Rr>,
                                        ttls: seq<Ttl>, i: nat, x: nat)
    requires Laid(wire, f, qend, slots, rrs) && TtlsOf(ttls, qend, slots, rrs) && i < |slots|
    requires slots[i].start <= x < slots[i].next && !(slots[i].mid + 4 <= x < slots[i].mid + 8)
    ensures qend <= x && !InField(ttls, 0, x - qend)
  {
    hide Laid;
    SlotIn(wire, f, qend, slots, rrs, i);
    forall k | 0 <= k < |ttls|
      ensures !(ttls[k].off <= x - qend < ttls[k].off + 4)
    {
      SlotIn(wire, f, qend, slots, rrs, k);
      if k < i {
        SlotOrder(wire, f, qend, slots, rrs, k + 1, i);
      } else if k > i {
        SlotOrder(wire, f, qend, slots, rrs, i + 1, k);
      }
    }
  }

  /** No name has a byte in a TTL field. */
  lemma {:induction false} NamesOffFields(wire: seq<byte>, f: Foot, qend: nat, slots: seq<Slot>, rrs: seq<Rr>,
                                          ttls: seq<Ttl>, x: nat)
    requires Laid(wire, f, qend, slots, rrs) && TtlsOf(ttls, qend, slots, rrs) && qend <= x
    requires (x in f.lits || x in f.ptrs)
    ensures !InField(ttls, 0, x - qend)
  {
    hide Laid, RecAt;
    forall k | 0 <= k < |ttls|
      ensures !(ttls[k].off <= x - qend < ttls[k].off + 4)
    {
      FootFree(wire, f, qend, slots, rrs, k);
    }
  }

  lemma {:induction false} FootFree(wire: seq<byte>, f: Foot, qend: nat, slots: seq<Slot>, rrs: seq<Rr>, k: nat)
    requires Laid(wire, f, qend, slots, rrs) && k < |slots|
    ensures OffFoot(f, slots[k].mid, slots[k].next) && slots[k].mid + 10 <= slots[k].next
  {
    hide DecTo, Holds, NameEnd, Fixed, RrOk;
    assert RecAt(wire, f, slots[k], rrs[k]);
  }

  lemma {:induction false} HoldsCopy(wire: seq<byte>, out: seq<byte>, off: nat, w: seq<byte>)
    requires Holds(wire, off, w) && off + |w| <= |out| && forall x :: off <= x < off + |w| ==> out[x] == wire[x]
    ensures Holds(out, off, w)
  {
  }

  /** The TTL that record i of the message goes out with; beyond TTL_SLOTS records none is rewritten. */
  function ServedTtl(rr: Rr, i: nat, elapsed: nat, staleTtl: nat): nat {
    if i < TTL_SLOTS then Decayed(rr.ttl, elapsed, staleTtl) else rr.ttl
  }

  lemma {:induction false} SlotCopied(out: seq<byte>, wire: seq<byte>, f: Foot, qend: nat, slots: seq<Slot>,
                                      rrs: seq<Rr>,
                                      ttls: seq<Ttl>, elapsed: nat, staleTtl: nat, i: nat)
    requires Laid(wire, f, qend, slots, rrs) && TtlsOf(ttls, qend, slots, rrs) && i < |slots|
    requires Copied(out, wire, qend, ttls, elapsed, staleTtl) && slots[i].next <= |out|
    ensures slots[i].next <= |wire|
    ensures forall x :: slots[i].start <= x < slots[i].next && !(slots[i].mid + 4 <= x < slots[i].mid + 8) ==>
        out[x] == wire[x]
  {
    hide Laid, InField, Holds;
    forall x | slots[i].start <= x < slots[i].next && !(slots[i].mid + 4 <= x < slots[i].mid + 8)
      ensures out[x] == wire[x]
    {
      OnlyOwnField(wire, f, qend, slots, rrs, ttls, i, x);
    }
  }

  /** The ten fixed bytes and the data of a served record. */
  lemma {:induction false} FieldsServed(out: seq<byte>, wire: seq<byte>, f: Foot, qend: nat, slots: seq<Slot>,
                                        rrs: seq<Rr>,
                                        ttls: seq<Ttl>, elapsed: nat, staleTtl: nat, i: nat)
    requires Laid(wire, f, qend, slots, rrs) && TtlsOf(ttls, qend, slots, rrs) && i < |slots|
    requires Copied(out, wire, qend, ttls, elapsed, staleTtl) && slots[i].next <= |out|
    ensures var r := rrs[i];
      Holds(out, slots[i].mid, Fixed(r.rtype, r.rclass, ServedTtl(r, i, elapsed, staleTtl), |r.rdata|) + r.rdata)
  {
    hide Laid, Be16, Be32, RrOk, Copied, TtlsOf, Holds;
    LaidSize(wire, f, qend, slots, rrs);
    var r, mid := rrs[i], slots[i].mid;
    SlotIn(wire, f, qend, slots, rrs, i);
    RecHolds(wire, f, qend, slots, rrs, i);
    FieldLens(r);
    SlotCopied(out, wire, f, qend, slots, rrs, ttls, elapsed, staleTtl, i);
    TtlServed(out, wire, f, qend, slots, rrs, ttls, elapsed, staleTtl, i);
    Respelt(wire, out, mid, Be16(r.rtype) + Be16(r.rclass), Be32(r.ttl), Be32(ServedTtl(r, i, elapsed, staleTtl)),
        Be16(|r.rdata|), r.rdata);
  }

  /** Four bytes at mid + 4 changed, everything around them the same. */
  lemma {:induction false} Respelt(wire: seq<byte>, out: seq<byte>, mid: nat, w: seq<byte>, c: seq<byte>,
                                   c': seq<byte>, d: seq<byte>, r: seq<byte>)
    requires |w| == |c| == |c'| == 4 && |d| == 2 && mid + 10 + |r| <= |out| && mid + 10 + |r| <= |wire|
    requires Holds(wire, mid, (w + (c + d)) + r) && Holds(out, mid + 4, c')
    requires forall x :: mid <= x < mid + 10 + |r| && !(mid + 4 <= x < mid + 8) ==> out[x] == wire[x]
    ensures Holds(out, mid, (w + (c' + d)) + r)
  {
    hide Holds;
    HoldsConcat(wire, mid, w + (c + d), r);
    HoldsConcat(wire, mid, w, c + d);
    HoldsConcat(wire, mid + 4, c, d);
    HoldsCopy(wire, out, mid, w);
    HoldsCopy(wire, out, mid + 8, d);
    HoldsCopy(wire, out, mid + 10, r);
    HoldsConcat(out, mid + 4, c', d);
    HoldsConcat(out, mid, w, c' + d);
    HoldsConcat(out, mid, w + (c' + d), r);
  }

  lemma {:induction false} FieldLens(r: Rr)
    ensures |Be16(r.rtype) + Be16(r.rclass)| == 4 && |Be16(|r.rdata|)| == 2 && |Be32(r.ttl)| == 4
  {
  }

  lemma {:induction false} RecHolds(wire: seq<byte>, f: Foot, qend: nat, slots: seq<Slot>, rrs: seq<Rr>, i: nat)
    requires Laid(wire, f, qend, slots, rrs) && i < |slots|
    ensures var r := rrs[i];
      Holds(wire, slots[i].mid, ((Be16(r.rtype) + Be16(r.rclass)) + (Be32(r.ttl) + Be16(|r.rdata|))) + r.rdata)
    ensures RrOk(rrs[i])
  {
    hide DecTo, NameEnd, Holds, Be16, Be32, NameOk;
    assert RecAt(wire, f, slots[i], rrs[i]);
  }

  lemma {:induction false} TtlServed(out: seq<byte>, wire: seq<byte>, f: Foot, qend: nat, slots: seq<Slot>,
                                     rrs: seq<Rr>,
                                     ttls: seq<Ttl>, elapsed: nat, staleTtl: nat, i: nat)
    requires Laid(wire, f, qend, slots, rrs) && TtlsOf(ttls, qend, slots, rrs) && i < |slots|
    requires Copied(out, wire, qend, ttls, elapsed, staleTtl) && slots[i].next <= |out|
    ensures var t := Be32(ServedTtl(rrs[i], i, elapsed, staleTtl)); |t| == 4 && Holds(out, slots[i].mid + 4, t)
  {
    hide Laid, InField, RrOk, Holds;
    var r, mid := rrs[i], slots[i].mid;
    SlotIn(wire, f, qend, slots, rrs, i);
    if i < TTL_SLOTS {
      assert ttls[i].off == mid + 4 - qend;
    } else {
      RecHolds(wire, f, qend, slots, rrs, i);
      var w, d := Be16(r.rtype) + Be16(r.rclass), Be16(|r.rdata|);
      HoldsConcat(wire, mid, w + (Be32(r.ttl) + d), r.rdata);
      HoldsConcat(wire, mid, w, Be32(r.ttl) + d);
      HoldsConcat(wire, mid + 4, Be32(r.ttl), d);
      forall x | mid + 4 <= x < mid + 8
        ensures out[x] == wire[x]
      {
        UntrackedField(wire, f, qend, slots, rrs, ttls, i, x);
      }
      HoldsCopy(wire, out, mid + 4, Be32(r.ttl));
    }
  }

  lemma {:induction false} UntrackedField(wire: seq<byte>, f: Foot, qend: nat, slots: seq<Slot>, rrs: seq<Rr>,
                                          ttls: seq<Ttl>, i: nat, x: nat)
    requires Laid(wire, f, qend, slots, rrs) && TtlsOf(ttls, qend, slots, rrs) && |ttls| <= i < |slots|
    requires slots[i].start <= x < slots[i].next
    ensures qend <= x && !InField(ttls, 0, x - qend)
  {
    hide Laid;
    SlotIn(wire, f, qend, slots, rrs, i);
    forall k | 0 <= k < |ttls|
      ensures !(ttls[k].off <= x - qend < ttls[k].off + 4)
    {
      SlotIn(wire, f, qend, slots, rrs, k);
      SlotOrder(wire, f, qend, slots, rrs, k + 1, i);
    }
  }

  /** Up to case, the bytes the owner of record i is made of are all copied. */
  lemma {:induction false} OwnerCopied(out: seq<byte>, wire: seq<byte>, f: Foot, qend: nat, slots: seq<Slot>,
                                       rrs: seq<Rr>,
                                       ttls: seq<Ttl>, elapsed: nat, staleTtl: nat, e: nat)
    requires Laid(wire, f, qend, slots, rrs) && TtlsOf(ttls, qend, slots, rrs) && FootIn(f, |wire|)
    requires Copied(out, wire, qend, ttls, elapsed, staleTtl) && e <= |out|
    requires (forall x :: x in f.ptrs ==> x >= qend) && (forall x :: x in f.lits && x < qend ==> x < qend - 4)
    ensures SameNamesCi(wire[..e], Cut(f, e), out)
  {
    hide Laid, InField, Holds, Lower;
    forall x | (x in f.lits || x in f.ptrs) && qend <= x < e
      ensures out[x] == wire[x]
    {
      NamesOffFields(wire, f, qend, slots, rrs, ttls, x);
    }
  }

  /** r' is r up to the case of its owner, with the given TTL. */
  predicate SameRr(r': Rr, r: Rr, ttl: nat) {
    Canon(r'.owner) == Canon(r.owner) && r'.rtype == r.rtype && r'.rclass == r.rclass && r'.ttl == ttl &&
        r'.rdata == r.rdata
  }

  /** A record of the message, read where its bytes were changed only in case and TTL. */
  lemma {:induction false} RecordReads(out: seq<byte>, wire: seq<byte>, f: Foot, sl: Slot, rr: Rr, ttl: nat)
    requires RecAt(wire, f, sl, rr) && ttl < W32
    requires SameNamesCi(wire[..sl.next], Cut(f, sl.next), out)
    requires Holds(out, sl.mid, Fixed(rr.rtype, rr.rclass, ttl, |rr.rdata|) + rr.rdata)
    ensures ParseRr(out, sl.start).Some? && ParseRr(out, sl.start).value.1 == sl.next
    ensures SameRr(ParseRr(out, sl.start).value.0, rr, ttl)
  {
    hide Dec, NameEnd, ParseName, SameNamesCi, Canon, Fixed, Holds, Get16, Get32, NameOk;
    var m, g := wire[..sl.next], Cut(f, sl.next);
    var d :| Dec(m, g, sl.start, sl.start, d, |rr.owner|) && Canon(d) == Canon(rr.owner);
    var d' := DecFold(m, g, out, sl.start, sl.start, d, |rr.owner|);
    FoundName(out, g, sl.start, rr.owner, d');
    FixedBack(out, sl.mid, rr.rtype, rr.rclass, ttl, rr.rdata);
  }

  lemma {:induction false} FoundName(out: seq<byte>, g: Foot, start: nat, n: Name, d: Name)
    requires Dec(out, g, start, start, d, |n|) && Canon(d) == Canon(n) && NameOk(n)
    ensures ParseName(out, start, start, 0, 0, 0) == Some(d)
  {
    hide Dec, ParseName, Canon;
    CanonSameOk(n, d);
    LabelCount(d);
    LabelCount(n);
    DecParses(out, g, start, start, d, |n|, 0, 0, 0);
  }

  /** From off on, the message holds records i .. k of rrs, in order and with their TTLs decayed, and ends at end. */
  ghost predicate ReadsBack(out: seq<byte>, off: nat, rrs: seq<Rr>, i: nat, k: nat, elapsed: nat, staleTtl: nat,
                            end: nat) {
    && i <= k <= |rrs| && ParseRrs(out, off, k - i).Some? && ParseRrs(out, off, k - i).value.1 == end
    && AllSame(ParseRrs(out, off, k - i).value.0, rrs, i, k, elapsed, staleTtl)
  }

  ghost predicate AllSame(rs: seq<Rr>, rrs: seq<Rr>, i: nat, k: nat, elapsed: nat, staleTtl: nat)
    requires i <= k <= |rrs|
  {
    |rs| == k - i && forall j :: i <= j < k ==> SameRr(rs[j - i], rrs[j], ServedTtl(rrs[j], j, elapsed, staleTtl))
  }

  lemma {:induction false} OneMore(r: Rr, rs: seq<Rr>, rrs: seq<Rr>, i: nat, k: nat, elapsed: nat, staleTtl: nat)
    requires i < k <= |rrs| && AllSame(rs, rrs, i + 1, k, elapsed, staleTtl)
    requires SameRr(r, rrs[i], ServedTtl(rrs[i], i, elapsed, staleTtl))
    ensures AllSame([r] + rs, rrs, i, k, elapsed, staleTtl)
  {
    hide SameRr, ServedTtl;
    forall j | i <= j < k
      ensures SameRr(([r] + rs)[j - i], rrs[j], ServedTtl(rrs[j], j, elapsed, staleTtl))
    {
      if j > i {
        assert ([r] + rs)[j - i] == rs[j - (i + 1)];
      }
    }
  }

  /** The records i.. of a served message, read one after the other. */
  lemma {:induction false} RecordsRead(out: seq<byte>, wire: seq<byte>, f: Foot, qend: nat, slots: seq<Slot>,
                                       rrs: seq<Rr>,
                                       ttls: seq<Ttl>, elapsed: nat, staleTtl: nat, i: nat, k: nat)
    requires Laid(wire, f, qend, slots, rrs) && TtlsOf(ttls, qend, slots, rrs) && FootIn(f, |wire|)
    requires Copied(out, wire, qend, ttls, elapsed, staleTtl) && staleTtl < W32
    requires (forall x :: x in f.ptrs ==> x >= qend) && (forall x :: x in f.lits && x < qend ==> x < qend - 4)
    requires i <= k <= |slots| && End(qend, slots, k) <= |out|
    ensures ReadsBack(out, End(qend, slots, i), rrs, i, k, elapsed, staleTtl, End(qend, slots, k))
    decreases k - i
  {
    hide Copied, FootIn, RecAt, SameNamesCi, Holds, ParseRr, Laid, TtlsOf, SameRr, ServedTtl, AllSame;
    LaidSize(wire, f, qend, slots, rrs);
    if i < k {
      var sl := slots[i];
      SlotIn(wire, f, qend, slots, rrs, i);
      SlotOrder(wire, f, qend, slots, rrs, i + 1, k);
      OwnerCopied(out, wire, f, qend, slots, rrs, ttls, elapsed, staleTtl, sl.next);
      FieldsServed(out, wire, f, qend, slots, rrs, ttls, elapsed, staleTtl, i);
      var ttl := ServedTtl(rrs[i], i, elapsed, staleTtl);
      LaidAt(wire, f, qend, slots, rrs, i, elapsed, staleTtl);
      RecordReads(out, wire, f, sl, rrs[i], ttl);
      RecordsRead(out, wire, f, qend, slots, rrs, ttls, elapsed, staleTtl, i + 1, k);
      OneMore(ParseRr(out, sl.start).value.0, ParseRrs(out, sl.next, k - (i + 1)).value.0, rrs, i, k, elapsed,
          staleTtl);
    } else {
      NoneSame(rrs, k, elapsed, staleTtl);
    }
  }

  lemma {:induction false} NoneSame(rrs: seq<Rr>, k: nat, elapsed: nat, staleTtl: nat)
    requires k <= |rrs|
    ensures AllSame([], rrs, k, k, elapsed, staleTtl)
  {
  }

  lemma {:induction false} LaidAt(wire: seq<byte>, f: Foot, qend: nat, slots: seq<Slot>, rrs: seq<Rr>, i: nat,
                                  elapsed: nat, staleTtl: nat)
    requires Laid(wire, f, qend, slots, rrs) && i < |slots| && staleTtl < W32
    ensures RecAt(wire, f, slots[i], rrs[i]) && ServedTtl(rrs[i], i, elapsed, staleTtl) < W32
  {
    hide DecTo, NameEnd, Holds, NameOk;
    assert RecAt(wire, f, slots[i], rrs[i]);
  }

  /** The header of a served message reads back as the id, one question and the counts of what is kept. */
  lemma {:induction false} ServedHeader(m: Ment, c: Composed, a: Answer, budget: nat, outcap: nat,
                                        id: nat, base: bv16, qname: seq<byte>, elapsed: nat, staleTtl: nat)
    requires StoredFrom(m, c, a) && MentOk(m) && id < 0x1_0000
    ensures var p := Choose(m, budget, outcap);
      var out := ServedBytes(m, p, id, base, qname, elapsed, staleTtl);
      && HDR_LEN <= |out| && Get16(out, 0) == id && Get16(out, 4) == 1
      && Get16(out, 6) == p.an && Get16(out, 8) == p.ns && Get16(out, 10) == p.ar
  {
    hide PatchFrom, Flags, Usable;
    var p := Choose(m, budget, outcap);
    assert p.an < 0x1_0000 && p.ns < 0x1_0000 && p.ar < 0x1_0000;
    hide Choose, StoredFrom, Get16, HeaderBytes;
    HeaderReads(id, Flags(m, base, p.truncated), p, qname + (Be16(m.key.qtype) + Be16(m.key.qclass)),
                PatchFrom(m.blob[..p.cut], m.ttls, 0, elapsed, staleTtl));
  }

  lemma {:induction false} HeaderReads(id: nat, flags: bv16, p: Plan, question: seq<byte>, body: seq<byte>)
    requires id < 0x1_0000 && p.an < 0x1_0000 && p.ns < 0x1_0000 && p.ar < 0x1_0000
    ensures var out := HeaderBytes(id, flags, p) + question + body;
      && Get16(out, 0) == id && Get16(out, 4) == 1
      && Get16(out, 6) == p.an && Get16(out, 8) == p.ns && Get16(out, 10) == p.ar
  {
    var h := HeaderBytes(id, flags, p);
    var out := h + question + body;
    assert forall i :: 0 <= i < HDR_LEN ==> out[i] == h[i];
  }

  /**
   Serving a stored answer: for every budget the message holds the records of a prefix of the
   answer's sections, as many as its counts say, and each reads back as it was put in, up to
   the case of its owner and with its TTL decayed.
   */
  lemma {:induction false} ServedMeans(m: Ment, c: Composed, f: Foot, slots: seq<Slot>, a: Answer, budget: nat,
                                       outcap: nat,
                                       id: nat, base: bv16, qname: seq<byte>, elapsed: nat, staleTtl: nat)
    requires ComposedOk(c, f, slots, a) && StoredFrom(m, c, a) && SameQuestion(qname, a.question) && staleTtl < W32
    ensures MentOk(m)
    ensures var p := Choose(m, budget, outcap);
      var out := ServedBytes(m, p, id, base, qname, elapsed, staleTtl);
      ReadsBack(out, c.qend, AllRrs(a), 0, p.an + p.ns + p.ar, elapsed, staleTtl, |out|)
  {
    hide Laid, Copied, FootIn, ReadsBack, Choose, QuestionBytes, Get16, TtlsAt, Usable, TtlsOf;
    CutAtBoundary(m, c, f, slots, a, budget, outcap);
    var p := Choose(m, budget, outcap);
    var out := ServedBytes(m, p, id, base, qname, elapsed, staleTtl);
    ServedCopied(m, c, f, slots, a, p, id, base, qname, elapsed, staleTtl);
    hide ServedBytes;
    EntryTtls(m, c, f, slots, a);
    RecordsRead(out, c.wire, f, c.qend, slots, AllRrs(a), m.ttls, elapsed, staleTtl, 0, p.an + p.ns + p.ar);
  }

  /** From off on, the message holds the first k of rrs, in order and with their TTLs decayed, and ends at end. */
  ghost predicate ReadsDecayed(out: seq<byte>, off: nat, rrs: seq<Rr>, k: nat, elapsed: nat, staleTtl: nat, end: nat) {
    && k <= |rrs| && ParseRrs(out, off, k).Some? && ParseRrs(out, off, k).value.1 == end
    && var rs := ParseRrs(out, off, k).value.0;
       |rs| == k && forall j :: 0 <= j < k ==> SameRr(rs[j], rrs[j], Decayed(rrs[j].ttl, elapsed, staleTtl))
  }

  /** Every answer that came out of a record list is served with every TTL decayed: there are slots for all. */
  lemma {:induction false} ServedDecayed(m: Ment, c: Composed, f: Foot, slots: seq<Slot>, a: Answer,
                                         budget: nat, outcap: nat, id: nat, base: bv16, qname: seq<byte>,
                                         elapsed: nat, staleTtl: nat)
    requires ComposedOk(c, f, slots, a) && StoredFrom(m, c, a) && SameQuestion(qname, a.question) && staleTtl < W32
    requires WithinList(a)
    ensures MentOk(m)
    ensures var p := Choose(m, budget, outcap);
      var out := ServedBytes(m, p, id, base, qname, elapsed, staleTtl);
      ReadsDecayed(out, c.qend, AllRrs(a), p.an + p.ns + p.ar, elapsed, staleTtl, |out|)
  {
    hide ComposedOk, StoredFrom, SameQuestion, Choose, ServedBytes, ParseRrs, SameRr;
    ServedMeans(m, c, f, slots, a, budget, outcap, id, base, qname, elapsed, staleTtl);
    var p := Choose(m, budget, outcap);
    var out, k := ServedBytes(m, p, id, base, qname, elapsed, staleTtl), p.an + p.ns + p.ar;
    var rs := ParseRrs(out, c.qend, k).value.0;
    forall j | 0 <= j < k
      ensures SameRr(rs[j], AllRrs(a)[j], Decayed(AllRrs(a)[j].ttl, elapsed, staleTtl))
    {
      assert SameRr(rs[j - 0], AllRrs(a)[j], ServedTtl(AllRrs(a)[j], j, elapsed, staleTtl));
    }
  }

  /** Composing an answer and storing it gives an entry for that answer. */
  method StoreAnswer(a: Answer, dnssecOk: bool, rcode: bv16, flags: bv16, ttl: nat, now: nat, local: bool)
    returns (r: Option<Ment>, ghost c: Composed, ghost f: Foot, ghost slots: seq<Slot>)
    requires AnswerOk(a) && ttl > 0
    ensures r.Some? ==> ComposedOk(c, f, slots, a) && StoredFrom(r.value, c, a) && MentOk(r.value)
    ensures r.Some? ==> r.value.key.dnssecOk == dnssecOk && r.value.stored == now && r.value.ttl == ttl
    ensures r.Some? ==> r.value.local == local
    ensures r.None? ==> HDR_LEN + |QuestionBytes(a.question)| + FullSize(AllRrs(a)) > MAX_MSG
  {
    hide Laid, RrOk, Usable, Get16, Lits, NameOk, WireLen, FullSize;
    var w;
    w, f, slots := Compose(a);
    c := Composed([], 0, 0, 0, [], []);
    if w.None? {
      return None, c, f, slots;
    }
    c := w.value;
    QuestionWire(a.question.name);
    var k := Key(|Encoded(a.question.name, |a.question.name|, 0)|, a.question.qtype, a.question.qclass, dnssecOk);
    var o := Store(k, w.value, rcode, flags, ttl, now, local);
    if o.Kept? {
      r := Some(o.m);
    } else {
      r := None;
    }
  }

  // ---------------------------------------------------------------------------
  // Refresh outcomes
  // ---------------------------------------------------------------------------

  /** One outcome: the two counts kept in a byte, and whether to drop the entry. */
  function Refreshed(refresh: nat, denied: bool, confirm: nat): (nat, bool) {
    var nx := if denied then refresh / 16 + 1 else 0;
    (16 * Least(nx, 15) + Least(refresh % 16 + 1, 15), denied && nx >= confirm)
  }

  /** The byte after a run of outcomes. */
  function AfterRun(run: seq<bool>): nat {
    if |run| == 0 then 0 else Refreshed(AfterRun(run[..|run| - 1]), run[|run| - 1], 0).0
  }

  /** How many of the last outcomes, without a break, were denials. */
  function Denials(run: seq<bool>): (n: nat)
    ensures n <= |run|
    ensures forall i :: |run| - n <= i < |run| ==> run[i]
    ensures n < |run| ==> !run[|run| - n - 1]
  {
    if |run| == 0 || !run[|run| - 1] then 0 else 1 + Denials(run[..|run| - 1])
  }

  lemma {:induction false} CountsAfter(run: seq<bool>)
    ensures AfterRun(run) == 16 * Least(Denials(run), 15) + Least(|run|, 15)
  {
    if |run| > 0 {
      var before := run[..|run| - 1];
      CountsAfter(before);
      Nibbles(Least(Denials(before), 15), Least(|before|, 15));
    }
  }

  lemma {:induction false} Nibbles(hi: nat, lo: nat)
    requires lo < 16
    ensures (16 * hi + lo) / 16 == hi && (16 * hi + lo) % 16 == lo
  {
  }

  /**
   An entry is dropped exactly on the denial that makes `confirm` in a row, as long as that
   is no more than the count can reach; with more than 16 asked for it never is.
   */
  lemma {:induction false} DropIff(run: seq<bool>, denied: bool, confirm: nat)
    ensures Refreshed(AfterRun(run), denied, confirm).1
      <==> denied && confirm <= 16 && Denials(run + [denied]) >= confirm
  {
    CountsAfter(run);
    assert (run + [denied])[..|run|] == run;
  }

  /** For what the configuration lets through, an entry goes exactly on that many denials in a row. */
  lemma {:induction false} DropConfirmed(run: seq<bool>, denied: bool, confirm: nat)
    requires 1 <= confirm <= 15
    ensures Refreshed(AfterRun(run), denied, confirm).1 <==> Denials(run + [denied]) >= confirm
  {
    hide Refreshed, AfterRun;
    DropIff(run, denied, confirm);
  }

  /** Seventeen denials in a row, and seventeen asked for: not dropped. */
  lemma {:induction false} NeverDropped()
    ensures var run := seq(16, _ => true);
      Denials(run + [true]) == 17 && !Refreshed(AfterRun(run), true, 17).1
  {
    var run := seq(16, _ => true);
    AllDenials(run + [true]);
    DropIff(run, true, 17);
  }

  lemma {:induction false} AllDenials(run: seq<bool>)
    requires forall i :: 0 <= i < |run| ==> run[i]
    ensures Denials(run) == |run|
  {
    if |run| > 0 {
      AllDenials(run[..|run| - 1]);
    }
  }
}
