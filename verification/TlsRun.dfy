/**
 What every run of the TLS engine keeps: the order of the handshake and where its messages
 came from, the Finished check, the nonces, and silence after close_notify.
 */
module TlsRun {
  import opened Words
  import opened Bytes
  import opened TlsEngine
  import opened TlsFeed

  // ---------------------------------------------------------------------------
  // Nonces
  // ---------------------------------------------------------------------------

  lemma {:induction false} XorCancels(a: nat, b: nat, b': nat, k: nat)
    requires b < Two(k) && b' < Two(k) && Xor(a, b, k) == Xor(a, b', k)
    ensures b == b'
    decreases k
  {
    if k > 0 {
      var x, y := Xor(a / 2, b / 2, k - 1), Xor(a / 2, b' / 2, k - 1);
      BitCancels(a % 2, b % 2, b' % 2, x, y);
      XorCancels(a / 2, b / 2, b' / 2, k - 1);
    }
  }

  lemma {:induction false} BitCancels(a: nat, b: nat, b': nat, x: nat, y: nat)
    requires a < 2 && b < 2 && b' < 2 && (a + b) % 2 + 2 * x == (a + b') % 2 + 2 * y
    ensures b == b' && x == y
  {
  }

  lemma {:induction false} MixedCancels(a: byte, b: nat, b': nat)
    requires b < 256 && b' < 256 && Mixed(a, b) == Mixed(a, b')
    ensures b == b'
  {
    assert Two(8) == 256;
    XorCancels(a, b, b', 8);
  }

  function Pow256(k: nat): (r: nat)
    ensures r >= 1
  {
    if k == 0 then 1 else 256 * Pow256(k - 1)
  }

  /** A number below 256^k is known from its k bytes. */
  lemma {:induction false} BytesTell(v: nat, w: nat, k: nat)
    requires v < Pow256(k) && w < Pow256(k) && forall i :: 0 <= i < k ==> Shifted(v, i) % 256 == Shifted(w, i) % 256
    ensures v == w
    decreases k
  {
    if k > 0 {
      assert Shifted(v, 0) == v && Shifted(w, 0) == w;
      forall i | 0 <= i < k - 1
        ensures Shifted(v / 256, i) % 256 == Shifted(w / 256, i) % 256
      {
        assert Shifted(v, i + 1) == Shifted(v / 256, i) && Shifted(w, i + 1) == Shifted(w / 256, i);
      }
      BytesTell(v / 256, w / 256, k - 1);
    }
  }

  /** Different sequence numbers give different nonces. */
  lemma {:induction false} NonceInjective(iv: Data, v: nat, w: nat)
    requires |iv| >= 8 && v < W64 && w < W64 && MakeNonce(iv, v) == MakeNonce(iv, w)
    ensures v == w
  {
    hide Shifted, Mixed;
    forall i | 0 <= i < 8
      ensures Shifted(v, i) % 256 == Shifted(w, i) % 256
    {
      var j := |iv| - 1 - i;
      assert MakeNonce(iv, v)[j] == MakeNonce(iv, w)[j];
      MixedCancels(iv[j], Shifted(v, i) % 256, Shifted(w, i) % 256);
    }
    assert Pow256(8) == W64 by {
      assert Pow256(4) == 0x1_0000_0000;
    }
    BytesTell(v, w, 8);
  }

  // ---------------------------------------------------------------------------
  // What was written
  // ---------------------------------------------------------------------------

  /** The IV is twelve bytes long (section 5.3 of RFC 8446). */
  ghost predicate IvLen(c: Crypto) {
    forall s :: |c.expand(s, "iv", [])| == 12
  }

  /** The part of an engine that writing is about. */
  datatype View = View(failed: bool, done: bool, sentClose: bool, quiet: bool, wrOn: bool, wrSeq: nat, wrIv: Data,
                       sent: seq<Sent>, epoch: nat, number: nat, closeAt: nat)

  function ViewOf(t: Tls): View {
    View(t.state == Failed, t.hs == Done, t.sentClose, t.app == [], t.wrOn, t.wrSeq, t.wrIv,
         t.trace.sent, t.trace.epoch, t.trace.number, t.trace.closeAt)
  }

  predicate Fatal(s: Sent) {
    s.kind == CT_ALERT && |s.content| == 2 && s.content[0] == 2
  }

  /** Sealed records number upwards within an epoch, and no two of one epoch share a nonce. */
  ghost predicate Numbered(v: View) {
    && (forall i :: 0 <= i < |v.sent| && v.sent[i].sealed ==> v.sent[i].epoch <= v.epoch)
    && (v.wrOn ==> |v.wrIv| == 12 && v.wrSeq == v.number % W64)
    && (v.wrOn ==> forall i :: 0 <= i < |v.sent| && v.sent[i].sealed && v.sent[i].epoch == v.epoch ==>
         v.sent[i].number < v.number && v.sent[i].nonce == MakeNonce(v.wrIv, v.sent[i].number % W64))
    && (forall i, j ::
          0 <= i < j < |v.sent| && v.sent[i].sealed && v.sent[j].sealed && v.sent[i].epoch == v.sent[j].epoch ==>
         v.sent[i].number < v.sent[j].number && (v.sent[j].number < W64 ==> v.sent[i].nonce != v.sent[j].nonce))
  }

  /** Once our close_notify is queued, nothing follows but one fatal alert, and that is the end. */
  ghost predicate Silent(v: View) {
    v.sentClose ==>
      && v.done && v.closeAt <= |v.sent| <= v.closeAt + 1
      && (|v.sent| > v.closeAt ==> v.failed && Fatal(v.sent[v.closeAt]))
  }

  /** No application data before the handshake is done. */
  ghost predicate WriteOk(v: View) {
    Numbered(v) && Silent(v) && (v.quiet || v.done)
  }

  lemma {:induction false} SealedNumbered(v: View, s: Sent)
    requires Numbered(v) && v.wrOn && s.sealed && s.epoch == v.epoch && s.number == v.number
    requires s.nonce == MakeNonce(v.wrIv, v.wrSeq)
    ensures Numbered(v.(sent := v.sent + [s], number := v.number + 1, wrSeq := (v.wrSeq + 1) % W64))
  {
    hide MakeNonce;
    var v' := v.(sent := v.sent + [s], number := v.number + 1, wrSeq := (v.wrSeq + 1) % W64);
    var n := |v.sent|;
    assert v'.sent[n] == s;
    forall i | 0 <= i < n && v.sent[i].sealed && v.sent[i].epoch == s.epoch && s.number < W64
      ensures v.sent[i].nonce != s.nonce
    {
      if v.sent[i].nonce == s.nonce {
        NonceInjective(v.wrIv, v.sent[i].number, s.number);
      }
    }
    forall i, j | 0 <= i < j < |v'.sent| && v'.sent[i].sealed && v'.sent[j].sealed &&
        v'.sent[i].epoch == v'.sent[j].epoch
      ensures v'.sent[i].number < v'.sent[j].number
      ensures (v'.sent[j].number < W64 ==> v'.sent[i].nonce != v'.sent[j].nonce)
    {
      assert v'.sent[i] == v.sent[i];
      if j < n {
        assert v'.sent[j] == v.sent[j];
      }
    }
    assert v'.wrSeq == v'.number % W64;
  }

  lemma {:induction false} PlainNumbered(v: View, s: Sent)
    requires Numbered(v) && !s.sealed
    ensures Numbered(v.(sent := v.sent + [s]))
  {
    hide MakeNonce;
    var v' := v.(sent := v.sent + [s]);
    assert forall i :: 0 <= i < |v'.sent| && v'.sent[i].sealed ==> i < |v.sent| && v'.sent[i] == v.sent[i];
  }

  /** One record more: its kind and content are what was asked for, and the numbers stay right. */
  lemma {:induction false} PutOneView(c: Crypto, t: Tls, kind: byte, p: Data)
    requires Numbered(ViewOf(t))
    ensures var (t', ok) := PutOne(c, t, kind, p);
      var v, v' := ViewOf(t), ViewOf(t');
      && Numbered(v') && v' == v.(sent := v'.sent, number := v'.number, wrSeq := v'.wrSeq)
      && (!ok ==> v' == v)
      && (ok ==> |v'.sent| == |v.sent| + 1 && v.sent <= v'.sent)
      && (ok ==> v'.sent[|v.sent|].kind == kind && v'.sent[|v.sent|].content == p)
  {
    hide Numbered, PutSealed, PutPlain;
    if t.wrOn {
      PutSealedView(c, t, kind, p);
    } else {
      PutPlainView(t, kind, 3, p);
    }
  }

  lemma {:induction false} QueuedView(t: Tls, bytes: Data, s: Sent)
    ensures ViewOf(Queued(t, bytes, s)) == ViewOf(t).(sent := t.trace.sent + [s])
  {
  }

  lemma {:induction false} PutSealedView(c: Crypto, t: Tls, kind: byte, p: Data)
    requires Numbered(ViewOf(t)) && t.wrOn
    ensures var (t', ok) := PutSealed(c, t, kind, p);
      var v, v' := ViewOf(t), ViewOf(t');
      && Numbered(v') && v' == v.(sent := v'.sent, number := v'.number, wrSeq := v'.wrSeq)
      && (!ok ==> v' == v)
      && (ok ==> |v'.sent| == |v.sent| + 1 && v.sent <= v'.sent)
      && (ok ==> v'.sent[|v.sent|].kind == kind && v'.sent[|v.sent|].content == p)
  {
    hide Numbered, MakeNonce, Be16, Queued;
    var s := Sent(kind, p, true, t.trace.epoch, t.trace.number, MakeNonce(t.wrIv, t.wrSeq));
    SealedNumbered(ViewOf(t), s);
    var head: Data := [CT_APP, 3, 3] + Be16(|p| + 1 + TAG_LEN);
    QueuedView(t, head + c.seal(t.suite, t.wrKey, MakeNonce(t.wrIv, t.wrSeq), head, p + [kind]), s);
  }

  lemma {:induction false} PutPlainView(t: Tls, kind: byte, minor: byte, p: Data)
    requires Numbered(ViewOf(t))
    ensures var (t', ok) := PutPlain(t, kind, minor, p);
      var v, v' := ViewOf(t), ViewOf(t');
      && Numbered(v') && v' == v.(sent := v'.sent)
      && (!ok ==> v' == v)
      && (ok ==> |v'.sent| == |v.sent| + 1 && v.sent <= v'.sent)
      && (ok ==> v'.sent[|v.sent|].kind == kind && v'.sent[|v.sent|].content == p)
  {
    hide Numbered, Be16, Queued;
    var s := Sent(kind, p, false, 0, 0, []);
    PlainNumbered(ViewOf(t), s);
    QueuedView(t, [kind, 3, minor] + Be16(|p|) + p, s);
  }

  lemma {:induction false} PutView(c: Crypto, t: Tls, kind: byte, p: Data)
    requires Numbered(ViewOf(t))
    ensures var v, v' := ViewOf(t), ViewOf(PutRecord(c, t, kind, p).0);
      Numbered(v') && v' == v.(sent := v'.sent, number := v'.number, wrSeq := v'.wrSeq)
    decreases |p|
  {
    hide Numbered, PutOne;
    if |p| <= MAX_PLAIN {
      PutOneView(c, t, kind, p);
    } else {
      PutOneView(c, t, kind, p[..MAX_PLAIN]);
      PutView(c, PutOne(c, t, kind, p[..MAX_PLAIN]).0, kind, p[MAX_PLAIN..]);
    }
  }

  lemma {:induction false} FailWrites(c: Crypto, t: Tls, why: Err, alert: byte)
    requires WriteOk(ViewOf(t))
    ensures WriteOk(ViewOf(Fail(c, t, why, alert)))
  {
    hide Numbered, PutOne;
    var t1 := t.(state := Failed, err := why);
    if Active(t) && alert != AL_NONE {
      var t2 := t1.(alert := alert);
      assert ViewOf(t2) == ViewOf(t).(failed := true);
      NumberedFields(ViewOf(t), ViewOf(t2));
      PutOneView(c, t2, CT_ALERT, [2, alert]);
      var t3 := PutRecord(c, t2, CT_ALERT, [2, alert]).0;
      NumberedOff(ViewOf(t3));
      assert ViewOf(Wiped(t3)) == ViewOf(t3).(wrOn := false);
    } else if Active(t) {
      assert ViewOf(Wiped(t1)) == ViewOf(t).(failed := true, wrOn := false);
      NumberedOff(ViewOf(t));
      NumberedFields(ViewOf(t).(wrOn := false), ViewOf(Wiped(t1)));
    }
  }

  lemma {:induction false} NumberedFields(v: View, v': View)
    requires Numbered(v) && v'.sent == v.sent && v'.epoch == v.epoch && v'.number == v.number && v'.wrOn == v.wrOn
    requires v'.wrSeq == v.wrSeq && v'.wrIv == v.wrIv
    ensures Numbered(v')
  {
  }

  lemma {:induction false} NumberedOff(v: View)
    requires Numbered(v)
    ensures Numbered(v.(wrOn := false))
  {
  }

  /** New write keys: a new epoch, in which nothing has been sealed yet. */
  lemma {:induction false} NewEpoch(c: Crypto, t: Tls, secret: Data)
    requires Numbered(ViewOf(t)) && IvLen(c)
    ensures Numbered(ViewOf(SetWriteKeys(c, t, secret)))
    ensures ViewOf(SetWriteKeys(c, t, secret)).(wrSeq := t.wrSeq, wrIv := t.wrIv, wrOn := t.wrOn,
        epoch := t.trace.epoch, number := t.trace.number) == ViewOf(t)
  {
    hide MakeNonce;
    var t' := SetWriteKeys(c, t, secret);
    assert |t'.wrIv| == 12;
    assert t'.trace.sent == t.trace.sent;
  }

  // ---------------------------------------------------------------------------
  // Every handler keeps to that
  // ---------------------------------------------------------------------------

  lemma {:induction false} PutWrites(c: Crypto, t: Tls, kind: byte, p: Data)
    requires WriteOk(ViewOf(t)) && !t.sentClose
    ensures WriteOk(ViewOf(PutRecord(c, t, kind, p).0)) && ViewOf(PutRecord(c, t, kind, p).0).done == (t.hs == Done)
    ensures !PutRecord(c, t, kind, p).0.sentClose
  {
    hide Numbered, PutRecord;
    PutView(c, t, kind, p);
  }

  lemma {:induction false} KeysWrites(c: Crypto, t: Tls, rd: Data, wr: Data)
    requires WriteOk(ViewOf(t)) && IvLen(c)
    ensures WriteOk(ViewOf(SetWriteKeys(c, SetReadKeys(c, t, rd), wr)))
  {
    hide Numbered, SetWriteKeys;
    var t1 := SetReadKeys(c, t, rd);
    assert ViewOf(t1) == ViewOf(t);
    NewEpoch(c, t1, wr);
  }

  lemma {:induction false} HelloWrites(c: Crypto, t: Tls, msg: Data)
    requires WriteOk(ViewOf(t)) && IvLen(c) && t.hs == WaitSh
    ensures WriteOk(ViewOf(OnServerHello(c, t, msg)))
  {
    hide Numbered, ReadHello, Fail, SetWriteKeys, SetReadKeys, Derive, HsSecret;
    var h := ReadHello(msg, t.sid);
    if h.BadHello? {
      FailWrites(c, t, h.err, h.alert);
    } else {
      var x := c.x25519(t.priv, h.share);
      if x.None? {
        FailWrites(c, t, EParam, AL_ILLEGAL_PARAMETER);
      } else {
        var t1 := Hashed(t, msg).(priv := [], suite := h.suite, hsSecret := HsSecret(c, x.value));
        var cs := Derive(c, t1.hsSecret, "c hs traffic", t1.transcript);
        var ss := Derive(c, t1.hsSecret, "s hs traffic", t1.transcript);
        var t2 := t1.(cSecret := cs, sSecret := ss);
        assert ViewOf(t2) == ViewOf(t);
        KeysWrites(c, t2, ss, cs);
        KeysDone(c, t2, ss, cs);
      }
    }
  }

  lemma {:induction false} KeysDone(c: Crypto, t: Tls, rd: Data, wr: Data)
    ensures SetWriteKeys(c, SetReadKeys(c, t, rd), wr).hs == t.hs
  {
  }

  lemma {:induction false} PutHsWrites(c: Crypto, t: Tls, msg: Data)
    requires WriteOk(ViewOf(t)) && t.hs != Done
    ensures WriteOk(ViewOf(PutHs(c, t, msg).0)) && PutHs(c, t, msg).0.hs == t.hs
  {
    hide Numbered, PutRecord;
    assert ViewOf(Hashed(t, msg)) == ViewOf(t);
    PutWrites(c, Hashed(t, msg), CT_HS, msg);
    PutFrame(c, Hashed(t, msg), CT_HS, msg);
  }

  lemma {:induction false} CcsWrites(t: Tls)
    requires WriteOk(ViewOf(t)) && t.hs != Done
    ensures WriteOk(ViewOf(PutCcs(t).0)) && PutCcs(t).0.hs == t.hs
  {
    hide Numbered, PutPlain;
    PutPlainView(t, CT_CCS, 3, [1]);
    PutPlainFrame(t, CT_CCS, 3, [1]);
  }

  lemma {:induction false} FlightWrites(c: Crypto, t: Tls)
    requires WriteOk(ViewOf(t)) && t.hs != Done
    ensures WriteOk(ViewOf(OurFlight(c, t).0)) && OurFlight(c, t).0.hs == t.hs
  {
    hide WriteOk, PutHs, PutCcs, OurFinished, EmptyCert;
    CcsWrites(t);
    var t1 := PutCcs(t).0;
    PutHsWrites(c, t1, EmptyCert(t1.crCtx));
    var t2 := PutCert(c, t1).0;
    PutHsWrites(c, t2, OurFinished(c, t2.cSecret, t2.transcript));
  }

  lemma {:induction false} FinishedWrites(c: Crypto, t: Tls, msg: Data)
    requires WriteOk(ViewOf(t)) && IvLen(c) && t.hs == WaitFin && Active(t)
    ensures WriteOk(ViewOf(OnFinished(c, t, msg)))
  {
    hide WriteOk, Fail, SetWriteKeys, SetReadKeys, Derive, MasterSecret, OurFlight, VerifyData;
    FailWrites(c, t, EDecode, AL_DECODE_ERROR);
    FailWrites(c, t, EFinished, AL_DECRYPT_ERROR);
    var t1 := Hashed(t, msg);
    assert ViewOf(t1) == ViewOf(t);
    FlightWrites(c, t1);
    var t2 := OurFlight(c, t1).0;
    FailWrites(c, t2, ETooBig, AL_RECORD_OVERFLOW);
    var master := MasterSecret(c, t.hsSecret);
    var cAp := Derive(c, master, "c ap traffic", t1.transcript);
    var sAp := Derive(c, master, "s ap traffic", t1.transcript);
    var t3 := t2.(cSecret := cAp, sSecret := sAp);
    assert ViewOf(t3) == ViewOf(t2);
    KeysWrites(c, t3, sAp, cAp);
    KeysDone(c, t3, sAp, cAp);
    OpenWrites(SetWriteKeys(c, SetReadKeys(c, t3, sAp), cAp));
  }

  lemma {:induction false} OpenWrites(t: Tls)
    requires WriteOk(ViewOf(t)) && t.hs != Done
    ensures WriteOk(ViewOf(t.(hsSecret := [], hs := Done, state := Opened)))
  {
    hide Numbered;
    NumberedFields(ViewOf(t), ViewOf(t.(hsSecret := [], hs := Done, state := Opened)));
  }

  lemma {:induction false} KeyUpdateWrites(c: Crypto, t: Tls, msg: Data)
    requires WriteOk(ViewOf(t)) && IvLen(c)
    ensures WriteOk(ViewOf(OnKeyUpdate(c, t, msg)))
  {
    hide WriteOk, Fail, SetWriteKeys, PutRecord;
    FailWrites(c, t, EDecode, AL_DECODE_ERROR);
    FailWrites(c, t, EParam, AL_ILLEGAL_PARAMETER);
    var s := c.expand(t.sSecret, "traffic upd", []);
    var t1 := SetReadKeys(c, t.(sSecret := s), s);
    assert ViewOf(t1) == ViewOf(t);
    if !t.sentClose {
      PutWrites(c, t1, CT_HS, KEY_UPDATE);
      var t2 := PutRecord(c, t1, CT_HS, KEY_UPDATE).0;
      FailWrites(c, t2, ETooBig, AL_RECORD_OVERFLOW);
      var k := c.expand(t2.cSecret, "traffic upd", []);
      assert ViewOf(t2.(cSecret := k)) == ViewOf(t2);
      EpochWrites(c, t2.(cSecret := k), k);
    }
  }

  lemma {:induction false} EpochWrites(c: Crypto, t: Tls, secret: Data)
    requires WriteOk(ViewOf(t)) && IvLen(c)
    ensures WriteOk(ViewOf(SetWriteKeys(c, t, secret)))
  {
    hide Numbered, SetWriteKeys;
    NewEpoch(c, t, secret);
  }

  /** Fields that writing is not about. */
  lemma {:induction false} SameView(t: Tls, t': Tls)
    requires WriteOk(ViewOf(t)) && t'.state == t.state && t'.hs != Done && t.hs != Done && t'.sentClose == t.sentClose
    requires t'.app == t.app && t'.wrOn == t.wrOn && t'.wrSeq == t.wrSeq && t'.wrIv == t.wrIv && t'.trace == t.trace
    ensures WriteOk(ViewOf(t'))
  {
  }

  lemma {:induction false} ExtWrites(c: Crypto, t: Tls, msg: Data)
    requires WriteOk(ViewOf(t)) && t.hs == WaitEe
    ensures WriteOk(ViewOf(OnEncryptedExtensions(c, t, msg)))
  {
    hide WriteOk, Fail, ReadEncExts, Sub16;
    FailWrites(c, t, EDecode, AL_DECODE_ERROR);
    var (ext, r) := Sub16(Body(msg));
    var x := ReadEncExts(ext, t.alpn, t.alpnOk);
    SameView(t, t.(alpnOk := x.alpnOk));
    if x.BadEnc? {
      FailWrites(c, t.(alpnOk := x.alpnOk), x.err, x.alert);
    }
    SameView(t, t.(alpnOk := x.alpnOk, hs := WaitCertCr));
  }

  lemma {:induction false} CertWrites(c: Crypto, t: Tls, msg: Data)
    requires WriteOk(ViewOf(t)) && t.hs != Done
    ensures WriteOk(ViewOf(OnCert(c, t, msg))) && WriteOk(ViewOf(OnCertVerify(c, t, msg)))
  {
    hide WriteOk, Fail, CertShapeOk;
    FailWrites(c, t, EDecode, AL_DECODE_ERROR);
    SameView(t, Hashed(t, msg).(hs := WaitCv));
    SameView(t, Hashed(t, msg).(hs := WaitFin));
  }

  lemma {:induction false} CertReqWrites(c: Crypto, t: Tls, msg: Data)
    requires WriteOk(ViewOf(t)) && t.hs != Done
    ensures WriteOk(ViewOf(OnCertRequest(c, t, msg)))
  {
    hide WriteOk, Fail, Take, Sub16, U8;
    FailWrites(c, t, EDecode, AL_DECODE_ERROR);
    var (clen, r1) := U8(Body(msg));
    SameView(t, t.(crCtx := Take(r1, clen).0, certReq := true, hs := WaitCert));
  }

  lemma {:induction false} MessageWrites(c: Crypto, t: Tls, msg: Data)
    requires WriteOk(ViewOf(t)) && IvLen(c) && Active(t) && |msg| >= 4
    ensures WriteOk(ViewOf(OnMessage(c, t, msg)))
  {
    hide WriteOk, Fail, OnServerHello, OnEncryptedExtensions, OnFinished, OnKeyUpdate, OnCert, OnCertVerify;
    hide OnCertRequest;
    FailWrites(c, t, EUnexpected, AL_UNEXPECTED);
    if t.hs == WaitSh {
      HelloWrites(c, t, msg);
    } else if t.hs == WaitFin {
      FinishedWrites(c, t, msg);
    } else if t.hs == Done {
      KeyUpdateWrites(c, t, msg);
    } else {
      CertWrites(c, t, msg);
      SameView(t, Hashed(t, msg));
      CertReqWrites(c, Hashed(t, msg), msg);
      if t.hs == WaitEe {
        ExtWrites(c, Hashed(t, msg), msg);
      }
    }
  }

  lemma {:induction false} MessagesWrites(c: Crypto, t: Tls, buf: Data)
    requires WriteOk(ViewOf(t)) && IvLen(c)
    ensures WriteOk(ViewOf(Messages(c, t, buf)))
    decreases |buf|
  {
    hide WriteOk, Fail, OnMessage;
    assert ViewOf(t.(hsbuf := buf)) == ViewOf(t);
    if Active(t) && |buf| >= 4 {
      var mlen := Get24(buf, 1);
      FailWrites(c, t, ETooBig, AL_DECODE_ERROR);
      var t1 := Fail(c, t, ETooBig, AL_DECODE_ERROR);
      assert ViewOf(t1.(hsbuf := buf)) == ViewOf(t1);
      if mlen <= MAX_HSMSG && |buf| >= 4 + mlen {
        var msg, rest := buf[..4 + mlen], buf[4 + mlen..];
        assert ViewOf(Acted(t, msg, rest)) == ViewOf(t);
        MessageWrites(c, Acted(t, msg, rest), msg);
        var t1 := OnMessage(c, Acted(t, msg, rest), msg);
        FailWrites(c, t1, EUnexpected, AL_UNEXPECTED);
        assert ViewOf(Unexpected(c, t1).(hsbuf := rest)) == ViewOf(Unexpected(c, t1));
        MessagesWrites(c, t1, rest);
      }
    }
  }

  lemma {:induction false} AlertWrites(c: Crypto, t: Tls, p: Data)
    requires WriteOk(ViewOf(t)) && Active(t)
    ensures WriteOk(ViewOf(OnAlert(c, t, p)))
  {
    hide WriteOk, Fail;
    FailWrites(c, t, EDecode, AL_DECODE_ERROR);
    FailWrites(c, t, EAlert, AL_NONE);
    assert ViewOf(t.(state := Closed)) == ViewOf(t);
    if |p| == 2 {
      assert ViewOf(Fail(c, t, EAlert, AL_NONE).(alert := p[1])) == ViewOf(Fail(c, t, EAlert, AL_NONE));
    }
  }

  lemma {:induction false} ContentWrites(c: Crypto, t: Tls, kind: byte, p: Data)
    requires WriteOk(ViewOf(t)) && IvLen(c) && Active(t)
    ensures WriteOk(ViewOf(OnContent(c, t, kind, p)))
  {
    hide WriteOk, Fail, OnAlert, Messages;
    FailWrites(c, t, EUnexpected, AL_UNEXPECTED);
    FailWrites(c, t, EDecode, AL_UNEXPECTED);
    FailWrites(c, t, ETooBig, AL_RECORD_OVERFLOW);
    FailWrites(c, t, ETooBig, AL_INTERNAL_ERROR);
    AlertWrites(c, t, p);
    var tr := if t.rdOn then t.trace.(unsealed := t.trace.unsealed + p) else t.trace.(clear := t.trace.clear + p);
    assert ViewOf(t.(trace := tr)) == ViewOf(t);
    MessagesWrites(c, t.(trace := tr), t.hsbuf + p);
    if t.hs == Done {
      AppWrites(t, p);
    }
  }

  lemma {:induction false} AppWrites(t: Tls, p: Data)
    requires WriteOk(ViewOf(t)) && t.hs == Done
    ensures WriteOk(ViewOf(t.(app := p))) && WriteOk(ViewOf(t.(app := t.app + p)))
  {
    hide Numbered;
    NumberedFields(ViewOf(t), ViewOf(t.(app := p)));
    NumberedFields(ViewOf(t), ViewOf(t.(app := t.app + p)));
  }

  lemma {:induction false} RecordWrites(c: Crypto, t: Tls, r: Data)
    requires WriteOk(ViewOf(t)) && IvLen(c) && Active(t) && |r| >= 5
    ensures WriteOk(ViewOf(OnRecord(c, t, r)))
  {
    hide WriteOk, Fail, OnAlert, OnContent, OnPlaintext, Open;
    FailWrites(c, t, EUnexpected, AL_UNEXPECTED);
    FailWrites(c, t, EDecode, AL_DECODE_ERROR);
    FailWrites(c, t, EDecrypt, AL_BAD_RECORD_MAC);
    AlertWrites(c, t, r[5..]);
    ContentWrites(c, t, CT_HS, r[5..]);
    var o := Open(c, t, r);
    if o.Some? {
      var t1 := t.(rdSeq := (t.rdSeq + 1) % W64);
      assert ViewOf(t1) == ViewOf(t);
      PlaintextWrites(c, t1, o.value);
    }
  }

  lemma {:induction false} PlaintextWrites(c: Crypto, t: Tls, p: Data)
    requires WriteOk(ViewOf(t)) && IvLen(c) && Active(t)
    ensures WriteOk(ViewOf(OnPlaintext(c, t, p)))
  {
    hide WriteOk, Fail, OnContent;
    FailWrites(c, t, EUnexpected, AL_UNEXPECTED);
    FailWrites(c, t, ETooBig, AL_RECORD_OVERFLOW);
    var n := Unpadded(p);
    if n > 0 {
      ContentWrites(c, t, p[n - 1], p[..n - 1]);
    }
  }

  lemma {:induction false} FilledWrites(c: Crypto, t: Tls, rec: Data)
    requires WriteOk(ViewOf(t)) && IvLen(c) && Active(t)
    ensures WriteOk(ViewOf(OnFilled(c, t.(rec := rec))))
  {
    hide WriteOk, Fail, OnRecord;
    var t1 := t.(rec := rec);
    assert ViewOf(t1) == ViewOf(t);
    FailWrites(c, t1, EDecode, AL_UNEXPECTED);
    FailWrites(c, t1, ETooBig, AL_RECORD_OVERFLOW);
    if |rec| >= 5 {
      RecordWrites(c, t1, rec);
      assert ViewOf(OnRecord(c, t1, rec).(rec := [])) == ViewOf(OnRecord(c, t1, rec));
    }
  }

  lemma {:induction false} FeedWrites(c: Crypto, t: Tls, p: Data)
    requires WriteOk(ViewOf(t)) && IvLen(c) && RecOk(t)
    ensures WriteOk(ViewOf(Feed(c, t, p))) && RecOk(Feed(c, t, p))
    decreases |p|
  {
    hide WriteOk, OnFilled;
    if |p| > 0 && Active(t) {
      var k := if Want(t.rec) - |t.rec| > |p| then |p| else Want(t.rec) - |t.rec|;
      FeedStep(c, t, p, k);
      FilledWrites(c, t, t.rec + p[..k]);
      FilledOk(c, t, p[..k]);
      FeedWrites(c, OnFilled(c, t.(rec := t.rec + p[..k])), p[k..]);
    }
  }
}
