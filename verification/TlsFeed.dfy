/**
 The engine's loops, and that how the byte stream is cut into calls makes no difference
 (sections 5.1 and 5.2 of RFC 8446).
 */
module TlsFeed {
  import opened Words
  import opened Bytes
  import opened TlsEngine

  /** While the connection is up, the record coming in is a proper part of one with an acceptable header. */
  predicate RecOk(t: Tls) {
    Active(t) ==> |t.rec| < 5 || (|t.rec| < 5 + Get16(t.rec, 3) && Get16(t.rec, 3) <= MAX_RECORD)
  }

  // Writing leaves everything alone but the out queue, the counter and the trace.
  lemma {:induction false} PutOneFrame(c: Crypto, t: Tls, kind: byte, p: Data)
    ensures PutOne(c, t, kind, p).0.(out := t.out, wrSeq := t.wrSeq, trace := t.trace) == t
  {
    hide PutSealed, PutPlain;
    if t.wrOn {
      PutSealedFrame(c, t, kind, p);
    } else {
      PutPlainFrame(t, kind, 3, p);
    }
  }

  lemma {:induction false} PutSealedFrame(c: Crypto, t: Tls, kind: byte, p: Data)
    ensures PutSealed(c, t, kind, p).0.(out := t.out, wrSeq := t.wrSeq, trace := t.trace) == t
  {
    hide MakeNonce, Be16, Zeros;
  }

  lemma {:induction false} PutPlainFrame(t: Tls, kind: byte, minor: byte, p: Data)
    ensures PutPlain(t, kind, minor, p).0.(out := t.out, wrSeq := t.wrSeq, trace := t.trace) == t
  {
    hide Be16;
  }

  lemma {:induction false} PutFrame(c: Crypto, t: Tls, kind: byte, p: Data)
    ensures PutRecord(c, t, kind, p).0.(out := t.out, wrSeq := t.wrSeq, trace := t.trace) == t
    decreases |p|
  {
    hide PutOne;
    if |p| <= MAX_PLAIN {
      PutOneFrame(c, t, kind, p);
    } else {
      PutOneFrame(c, t, kind, p[..MAX_PLAIN]);
      PutFrame(c, PutOne(c, t, kind, p[..MAX_PLAIN]).0, kind, p[MAX_PLAIN..]);
    }
  }

  lemma {:induction false} FailEnds(c: Crypto, t: Tls, why: Err, alert: byte)
    ensures !Active(Fail(c, t, why, alert)) && Fail(c, t, why, alert).rec == t.rec
  {
    hide PutRecord;
    if Active(t) && alert != AL_NONE {
      PutFrame(c, t.(state := Failed, err := why, alert := alert), CT_ALERT, [2, alert]);
    }
  }

  lemma {:induction false} FilledOk(c: Crypto, t: Tls, p: Data)
    requires RecOk(t) && Active(t) && 0 < |p| <= Want(t.rec) - |t.rec|
    ensures RecOk(OnFilled(c, t.(rec := t.rec + p)))
  {
    hide OnRecord, Fail;
    var t1 := t.(rec := t.rec + p);
    if |t1.rec| == 5 {
      FailEnds(c, t1, EDecode, AL_UNEXPECTED);
      FailEnds(c, t1, ETooBig, AL_RECORD_OVERFLOW);
    }
  }

  /** Too few bytes to fill the record, or its header, are only kept. */
  lemma {:induction false} FeedShort(c: Crypto, t: Tls, a: Data)
    requires RecOk(t) && Active(t) && |a| < Want(t.rec) - |t.rec|
    ensures Feed(c, t, a) == t.(rec := t.rec + a)
  {
    hide OnRecord, Fail;
    if |a| == 0 {
      assert t.rec + a == t.rec;
    } else {
      assert a[..|a|] == a && a[|a|..] == [];
    }
  }

  lemma {:induction false} FeedStep(c: Crypto, t: Tls, p: Data, k: nat)
    requires RecOk(t) && Active(t) && |p| > 0 && k <= |p|
    requires k == if Want(t.rec) - |t.rec| > |p| then |p| else Want(t.rec) - |t.rec|
    ensures Feed(c, t, p) == Feed(c, OnFilled(c, t.(rec := t.rec + p[..k])), p[k..])
  {
    hide OnFilled;
  }

  /** Feeding a and then b is feeding both at once. */
  lemma {:induction false} FeedSplit(c: Crypto, t: Tls, a: Data, b: Data)
    requires RecOk(t)
    ensures Feed(c, Feed(c, t, a), b) == Feed(c, t, a + b)
    decreases |a|
  {
    hide OnFilled;
    if |a| == 0 {
      assert a + b == b;
    } else if |b| == 0 {
      assert a + b == a;
    } else if Active(t) {
      var k := Want(t.rec) - |t.rec|;
      if k <= |a| {
        var t1 := OnFilled(c, t.(rec := t.rec + a[..k]));
        assert (a + b)[..k] == a[..k] && (a + b)[k..] == a[k..] + b;
        FeedStep(c, t, a, k);
        FeedStep(c, t, a + b, k);
        FilledOk(c, t, a[..k]);
        hide Feed;
        FeedSplit(c, t1, a[k..], b);
      } else {
        FeedSplitShort(c, t, a, b);
      }
    }
  }

  lemma {:induction false} FeedSplitShort(c: Crypto, t: Tls, a: Data, b: Data)
    requires RecOk(t) && Active(t) && |b| > 0 && |a| < Want(t.rec) - |t.rec|
    ensures Feed(c, Feed(c, t, a), b) == Feed(c, t, a + b)
  {
    hide OnFilled;
    var t1, k := t.(rec := t.rec + a), Want(t.rec) - |t.rec|;
    FeedShort(c, t, a);
    var j := if k > |a + b| then |a + b| else k;
    assert (a + b)[..j] == a + b[..j - |a|] && (a + b)[j..] == b[j - |a|..];
    assert t.rec + (a + b[..j - |a|]) == (t.rec + a) + b[..j - |a|];
    FeedStep(c, t, a + b, j);
    FeedStep(c, t1, b, j - |a|);
  }

  // ---------------------------------------------------------------------------
  // The loops
  // ---------------------------------------------------------------------------

  /** The padding: zeros are dropped from the end until the content type shows. */
  method StripPadding(body: Data) returns (i: nat)
    ensures i == Unpadded(body)
  {
    i := |body|;
    assert body[..i] == body;
    while i > 0 && body[i - 1] == 0
      invariant i <= |body| && Unpadded(body[..i]) == Unpadded(body)
    {
      assert body[..i][..i - 1] == body[..i - 1];
      i := i - 1;
    }
  }

  /** The extensions of a ServerHello. */
  method HelloExtsLoop(exts: Rd) returns (r: HelloExts)
    ensures r == ReadHelloExts(exts, false, None)
  {
    hide Take;
    var ext, version: bool, share: Option<Data> := exts, false, None;
    while |ext.p| > 0
      invariant ReadHelloExts(ext, version, share) == ReadHelloExts(exts, false, None)
      decreases |ext.p|
    {
      var (kind, e1) := U16(ext);
      var (d, e2) := Sub16(e1);
      if e2.bad {
        return BadExts(EDecode, AL_DECODE_ERROR);
      }
      if kind == EXT_SUPPORTED_VERS {
        var (v, d1) := U16(d);
        if v != TLS13 || d1.bad || |d1.p| != 0 {
          return BadExts(EVersion, AL_PROTOCOL_VERSION);
        }
        version := true;
      } else if kind == EXT_KEY_SHARE {
        var (group, d1) := U16(d);
        var (klen, d2) := U16(d1);
        var (key, d3) := Take(d2, klen);
        if d3.bad || |d3.p| != 0 {
          return BadExts(EDecode, AL_DECODE_ERROR);
        }
        if group != GROUP_X25519 || klen != 32 {
          return BadExts(EParam, AL_ILLEGAL_PARAMETER);
        }
        share := Some(key);
      } else {
        return BadExts(EParam, AL_UNSUPPORTED_EXT);
      }
      ext := e2;
    }
    return GoodExts(version, share);
  }

  class Engine {
    const c: Crypto
    var t: Tls

    constructor (crypto: Crypto, ch: Data, alpn: Data, sid: Data, priv: Data)
      ensures c == crypto && t == Start(ch, alpn, sid, priv)
    {
      c, t := crypto, Start(ch, alpn, sid, priv);
    }

    /** put_record: a loop over chunks of at most 2^14 bytes, at least one. */
    method PutChunks(kind: byte, p: Data) returns (ok: bool)
      modifies this
      ensures (t, ok) == PutRecord(c, old(t), kind, p)
    {
      hide PutOne;
      var q := p;
      while |q| > MAX_PLAIN
        invariant PutRecord(c, t, kind, q) == PutRecord(c, old(t), kind, p)
        decreases |q|
      {
        var (t1, done) := PutOne(c, t, kind, q[..MAX_PLAIN]);
        if !done {
          t := t1;
          return false;
        }
        t, q := t1, q[MAX_PLAIN..];
      }
      var (t1, done) := PutOne(c, t, kind, q);
      t := t1;
      return done;
    }

    /** The loop of on_handshake. */
    method ActOn(buf: Data)
      modifies this
      ensures t == Messages(c, old(t), buf)
    {
      hide OnMessage, Fail, Acted;
      var b := buf;
      while Active(t)
        invariant Messages(c, t, b) == Messages(c, old(t), buf)
        decreases |b|
      {
        if |b| < 4 {
          break;
        }
        var mlen := Get24(b, 1);
        if mlen > MAX_HSMSG {
          t := Fail(c, t, ETooBig, AL_DECODE_ERROR).(hsbuf := b);
          return;
        }
        if |b| < 4 + mlen {
          break;
        }
        var before, msg, rest := t.hs, b[..4 + mlen], b[4 + mlen..];
        t := OnMessage(c, Acted(t, msg, rest), msg);
        if Straddles(before, t.hs, rest) {
          t := Unexpected(c, t).(hsbuf := rest);
          return;
        }
        b := rest;
      }
      t := t.(hsbuf := b);
    }

    /** elpis_tls_feed. */
    method FeedBytes(p: Data) returns (s: St)
      requires RecOk(t)
      modifies this
      ensures t == Feed(c, old(t), p) && RecOk(t) && s == t.state
    {
      hide OnFilled;
      var q := p;
      while |q| > 0 && Active(t)
        invariant RecOk(t) && Feed(c, t, q) == Feed(c, old(t), p)
        decreases |q|
      {
        var want := Want(t.rec);
        var take := want - |t.rec|;
        if take > |q| {
          take := |q|;
        }
        FeedStep(c, t, q, take);
        FilledOk(c, t, q[..take]);
        t := OnFilled(c, t.(rec := t.rec + q[..take]));
        q := q[take..];
      }
      return t.state;
    }
  }
}
