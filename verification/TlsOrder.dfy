/**
 The order of the handshake (section 4 of RFC 8446): in every run, which messages were acted
 on, that all but the ServerHello came out of the AEAD, and what the server's Finished proves.
 */
module TlsOrder {
  import opened Words
  import opened Bytes
  import opened TlsEngine
  import opened TlsFeed
  import opened TlsRun

  /** The part of an engine that the handshake is about. */
  datatype Core = Core(state: St, hs: Hs, certReq: bool, rdOn: bool, wrOn: bool, priv: Data, sid: Data, crCtx: Data,
                       transcript: seq<Data>, hsSecret: Data, cSecret: Data, sSecret: Data,
                       clear: Data, unsealed: Data, msgs: seq<Data>, shared: Data)

  function CoreOf(t: Tls): Core {
    Core(t.state, t.hs, t.certReq, t.rdOn, t.wrOn, t.priv, t.sid, t.crCtx, t.transcript, t.hsSecret, t.cSecret,
         t.sSecret,
         t.trace.clear, t.trace.unsealed, t.trace.msgs, t.trace.shared)
  }

  /** The messages of the server's flight, without and with a CertificateRequest. */
  function Types(cr: bool): (s: seq<byte>)
    ensures |s| == 5 + Extra(cr)
  {
    if cr then [HT_SERVER_HELLO, HT_ENC_EXT, HT_CERT_REQ, HT_CERT, HT_CERT_VERIFY, HT_FINISHED]
    else [HT_SERVER_HELLO, HT_ENC_EXT, HT_CERT, HT_CERT_VERIFY, HT_FINISHED]
  }

  function Extra(cr: bool): nat {
    if cr then 1 else 0
  }

  /** How many of them have been acted on at each stage. */
  function SeenAt(hs: Hs, cr: bool): nat {
    match hs
    case WaitSh => 0
    case WaitEe => 1
    case WaitCertCr => 2
    case WaitCert => 3
    case WaitCv => 3 + Extra(cr)
    case WaitFin => 4 + Extra(cr)
    case Done => 5 + Extra(cr)
  }

  ghost predicate StageOk(k: Core) {
    && (k.state == Handshaking <==> k.hs != Done)
    && (k.rdOn <==> k.hs != WaitSh) && (k.wrOn <==> k.hs != WaitSh)
    && (k.hs == WaitSh || k.hs == WaitEe || k.hs == WaitCertCr ==> !k.certReq) && (k.hs == WaitCert ==> k.certReq)
  }

  /**
   Where the handshake bytes came from: the ServerHello in the clear, and every later message,
   with what is still buffered, out of records that the AEAD opened.
   */
  ghost predicate Came(k: Core, buf: Data) {
    if k.hs == WaitSh then k.msgs == [] && k.clear == buf && k.unsealed == []
    else |k.msgs| >= 1 && k.clear == k.msgs[0] && k.unsealed == Flat(k.msgs[1..]) + buf
  }

  /** The messages acted on are the server's flight in order, and the transcript is those and ours. */
  ghost predicate Ordered(c: Crypto, ch: Data, k: Core) {
    var n := SeenAt(k.hs, k.certReq);
    && n <= |k.msgs| && n <= 5 + Extra(k.certReq)
    && (forall i :: 0 <= i < n ==> |k.msgs[i]| >= 4 && k.msgs[i][0] == Types(k.certReq)[i])
    && (k.hs != Done ==> |k.msgs| == n && k.transcript == [ch] + k.msgs)
    && (k.hs == Done ==> k.transcript == [ch] + k.msgs[..n] + Ours(c, ch, k))
  }

  function ServerHs(c: Crypto, shared: Data, ch: Data, sh: Data): Data {
    Derive(c, HsSecret(c, shared), "s hs traffic", [ch, sh])
  }

  function ClientHs(c: Crypto, shared: Data, ch: Data, sh: Data): Data {
    Derive(c, HsSecret(c, shared), "c hs traffic", [ch, sh])
  }

  function OurCert(k: Core): seq<Data> {
    if k.certReq then [EmptyCert(k.crCtx)] else []
  }

  /** Our own messages at the end of the transcript. */
  function Ours(c: Crypto, ch: Data, k: Core): seq<Data>
    requires 1 <= SeenAt(k.hs, k.certReq) <= |k.msgs|
  {
    var before := [ch] + k.msgs[..SeenAt(k.hs, k.certReq)] + OurCert(k);
    OurCert(k) + [OurFinished(c, ClientHs(c, k.shared, ch, k.msgs[0]), before)]
  }

  /** The shared secret is that of the server's share and our key. */
  ghost predicate Exchanged(c: Crypto, priv: Data, sh: Data, sid: Data, shared: Data) {
    var h := ReadHello(sh, sid);
    h.GoodHello? && c.x25519(priv, h.share) == Some(shared)
  }

  /** A Finished whose content is the HMAC of the transcript before it under the server's handshake secret. */
  ghost predicate Verified(c: Crypto, secret: Data, fin: Data, before: seq<Data>) {
    |fin| == 36 && fin[4..] == VerifyData(c, secret, before)
  }

  /** The secrets come from the X25519 exchange; once done, the Finished was checked under them. */
  ghost predicate Keyed(c: Crypto, ch: Data, priv: Data, k: Core)
    requires SeenAt(k.hs, k.certReq) <= |k.msgs|
  {
    if k.hs == WaitSh then k.priv == priv
    else if k.hs == Done then
      && Exchanged(c, priv, k.msgs[0], k.sid, k.shared)
      && Verified(c, ServerHs(c, k.shared, ch, k.msgs[0]), k.msgs[4 + Extra(k.certReq)],
          [ch] + k.msgs[..4 + Extra(k.certReq)])
    else
      && Exchanged(c, priv, k.msgs[0], k.sid, k.shared)
      && k.hsSecret == HsSecret(c, k.shared)
      && k.sSecret == ServerHs(c, k.shared, ch, k.msgs[0]) && k.cSecret == ClientHs(c, k.shared, ch, k.msgs[0])
  }

  ghost predicate Flow(c: Crypto, ch: Data, priv: Data, k: Core, buf: Data) {
    k.state != Failed ==> StageOk(k) && Came(k, buf) && Ordered(c, ch, k) && Keyed(c, ch, priv, k)
  }

  // ---------------------------------------------------------------------------
  // Writing does not touch the handshake
  // ---------------------------------------------------------------------------

  lemma {:induction false} PutOneCore(c: Crypto, t: Tls, kind: byte, p: Data)
    ensures CoreOf(PutOne(c, t, kind, p).0) == CoreOf(t)
  {
    hide MakeNonce, Be16;
  }

  lemma {:induction false} PutCore(c: Crypto, t: Tls, kind: byte, p: Data)
    ensures CoreOf(PutRecord(c, t, kind, p).0) == CoreOf(t)
    decreases |p|
  {
    hide PutOne;
    if |p| <= MAX_PLAIN {
      PutOneCore(c, t, kind, p);
    } else {
      PutOneCore(c, t, kind, p[..MAX_PLAIN]);
      PutCore(c, PutOne(c, t, kind, p[..MAX_PLAIN]).0, kind, p[MAX_PLAIN..]);
    }
  }

  lemma {:induction false} FailFlow(c: Crypto, t: Tls, why: Err, alert: byte)
    requires Active(t)
    ensures Fail(c, t, why, alert).state == Failed
  {
    hide PutRecord;
    if alert != AL_NONE {
      PutFrame(c, t.(state := Failed, err := why, alert := alert), CT_ALERT, [2, alert]);
    }
  }

  lemma {:induction false} FlatSnoc(ms: seq<Data>, m: Data)
    ensures Flat(ms + [m]) == Flat(ms) + m
  {
    assert (ms + [m])[..|ms|] == ms;
  }

  /** A message taken from the buffer joins the ones acted on. */
  lemma {:induction false} CameStep(k: Core, k': Core, msg: Data, rest: Data)
    requires Came(k, msg + rest) && k.hs != WaitSh && k'.hs != WaitSh
    requires k'.msgs == k.msgs + [msg] && k'.clear == k.clear && k'.unsealed == k.unsealed
    ensures Came(k', rest)
  {
    hide Flat;
    assert k'.msgs[1..] == k.msgs[1..] + [msg];
    FlatSnoc(k.msgs[1..], msg);
    assert Flat(k.msgs[1..]) + msg + rest == Flat(k.msgs[1..]) + (msg + rest);
  }

  // ---------------------------------------------------------------------------
  // Each message moves the handshake on by one
  // ---------------------------------------------------------------------------

  /** Between ServerHello and Finished: one more message hashed, the secrets as they were. */
  ghost predicate Advanced(k: Core, k': Core, msg: Data) {
    && k' == k.(hs := k'.hs, certReq := k'.certReq, crCtx := k'.crCtx, transcript := k.transcript + [msg],
        msgs := k.msgs + [msg])
    && k.hs != WaitSh && k.hs != Done && k'.hs != WaitSh && k'.hs != Done
    && SeenAt(k'.hs, k'.certReq) == SeenAt(k.hs, k.certReq) + 1
    && (forall i :: 0 <= i < SeenAt(k.hs, k.certReq) ==> Types(k'.certReq)[i] == Types(k.certReq)[i])
    && |msg| >= 4 && msg[0] == Types(k'.certReq)[SeenAt(k.hs, k.certReq)]
    && StageOk(k')
  }

  lemma {:induction false} SeenBounds(hs: Hs, cr: bool)
    requires hs == WaitCert ==> cr
    ensures SeenAt(hs, cr) <= 5 + Extra(cr)
    ensures hs != Done ==> SeenAt(hs, cr) < 5 + Extra(cr)
    ensures hs != WaitSh ==> SeenAt(hs, cr) >= 1
  {
  }

  lemma {:induction false} AdvancedFlow(c: Crypto, ch: Data, priv: Data, k: Core, k': Core, msg: Data, rest: Data)
    requires Flow(c, ch, priv, k, msg + rest) && k.state != Failed && Advanced(k, k', msg)
    ensures Flow(c, ch, priv, k', rest)
  {
    hide Flat, ServerHs, ClientHs, HsSecret, Exchanged, OurFinished, EmptyCert, SeenAt, Types;
    SeenBounds(k.hs, k.certReq);
    SeenBounds(k'.hs, k'.certReq);
    CameStep(k, k', msg, rest);
    var n := SeenAt(k.hs, k.certReq);
    assert [ch] + k.msgs + [msg] == [ch] + k'.msgs;
    forall i | 0 <= i < n + 1
      ensures |k'.msgs[i]| >= 4 && k'.msgs[i][0] == Types(k'.certReq)[i]
    {
      if i < n {
        assert k'.msgs[i] == k.msgs[i];
      }
    }
    assert k'.msgs[0] == k.msgs[0];
  }

  lemma {:induction false} ExtFlow(c: Crypto, ch: Data, priv: Data, t: Tls, msg: Data, rest: Data)
    requires Flow(c, ch, priv, CoreOf(t), msg + rest) && Active(t) && t.hs == WaitEe && |msg| >= 4
    requires msg[0] == HT_ENC_EXT
    ensures Flow(c, ch, priv, CoreOf(OnEncryptedExtensions(c, Hashed(Acted(t, msg, rest), msg), msg)), rest)
  {
    hide Fail, ReadEncExts, Sub16, Flow;
    var t1 := Hashed(Acted(t, msg, rest), msg);
    var t2 := OnEncryptedExtensions(c, t1, msg);
    FailFlow(c, t1, EDecode, AL_DECODE_ERROR);
    var (ext, r) := Sub16(Body(msg));
    var x := ReadEncExts(ext, t.alpn, t.alpnOk);
    if x.BadEnc? {
      FailFlow(c, t1.(alpnOk := x.alpnOk), x.err, x.alert);
    }
    if t2.state == Failed {
      FailedFlow(c, ch, priv, CoreOf(t2), rest);
    } else {
      FlowStage(c, ch, priv, CoreOf(t), msg + rest);
      AdvancedFlow(c, ch, priv, CoreOf(t), CoreOf(t2), msg, rest);
    }
  }

  lemma {:induction false} FailedFlow(c: Crypto, ch: Data, priv: Data, k: Core, buf: Data)
    requires k.state == Failed
    ensures Flow(c, ch, priv, k, buf)
  {
  }

  lemma {:induction false} FlowStage(c: Crypto, ch: Data, priv: Data, k: Core, buf: Data)
    requires Flow(c, ch, priv, k, buf) && k.state != Failed
    ensures StageOk(k)
  {
  }

  lemma {:induction false} CertReqFlow(c: Crypto, ch: Data, priv: Data, t: Tls, msg: Data, rest: Data)
    requires Flow(c, ch, priv, CoreOf(t), msg + rest) && Active(t) && t.hs == WaitCertCr && |msg| >= 4
    requires msg[0] == HT_CERT_REQ
    ensures Flow(c, ch, priv, CoreOf(OnCertRequest(c, Hashed(Acted(t, msg, rest), msg), msg)), rest)
  {
    hide Fail, Take, U8, Sub16, Flow;
    var t1 := Hashed(Acted(t, msg, rest), msg);
    var t2 := OnCertRequest(c, t1, msg);
    FailFlow(c, t1, EDecode, AL_DECODE_ERROR);
    if t2.state == Failed {
      FailedFlow(c, ch, priv, CoreOf(t2), rest);
    } else {
      FlowStage(c, ch, priv, CoreOf(t), msg + rest);
      AdvancedFlow(c, ch, priv, CoreOf(t), CoreOf(t2), msg, rest);
    }
  }

  lemma {:induction false} CertFlow(c: Crypto, ch: Data, priv: Data, t: Tls, msg: Data, rest: Data)
    requires Flow(c, ch, priv, CoreOf(t), msg + rest) && Active(t) && (t.hs == WaitCertCr || t.hs == WaitCert)
    requires |msg| >= 4 && msg[0] == HT_CERT
    ensures Flow(c, ch, priv, CoreOf(OnCert(c, Acted(t, msg, rest), msg)), rest)
  {
    hide Fail, CertShapeOk, Flow;
    var t1 := Acted(t, msg, rest);
    var t2 := OnCert(c, t1, msg);
    FailFlow(c, t1, EDecode, AL_DECODE_ERROR);
    if t2.state == Failed {
      FailedFlow(c, ch, priv, CoreOf(t2), rest);
    } else {
      FlowStage(c, ch, priv, CoreOf(t), msg + rest);
      AdvancedFlow(c, ch, priv, CoreOf(t), CoreOf(t2), msg, rest);
    }
  }

  lemma {:induction false} CertVerifyFlow(c: Crypto, ch: Data, priv: Data, t: Tls, msg: Data, rest: Data)
    requires Flow(c, ch, priv, CoreOf(t), msg + rest) && Active(t) && t.hs == WaitCv && |msg| >= 4
    requires msg[0] == HT_CERT_VERIFY
    ensures Flow(c, ch, priv, CoreOf(OnCertVerify(c, Acted(t, msg, rest), msg)), rest)
  {
    hide Fail, CertShapeOk, Flow;
    var t1 := Acted(t, msg, rest);
    var t2 := OnCertVerify(c, t1, msg);
    FailFlow(c, t1, EDecode, AL_DECODE_ERROR);
    if t2.state == Failed {
      FailedFlow(c, ch, priv, CoreOf(t2), rest);
    } else {
      FlowStage(c, ch, priv, CoreOf(t), msg + rest);
      AdvancedFlow(c, ch, priv, CoreOf(t), CoreOf(t2), msg, rest);
    }
  }

  lemma {:induction false} HelloCore(c: Crypto, t: Tls, msg: Data)
    requires Active(t) && OnServerHello(c, t, msg).state != Failed
    ensures var k, k' := CoreOf(t), CoreOf(OnServerHello(c, t, msg)); var h := ReadHello(msg, t.sid);
      && h.GoodHello? && c.x25519(t.priv, h.share) == Some(k'.shared)
      && k' == k.(hs := WaitEe, rdOn := true, wrOn := true, priv := [], transcript := k.transcript + [msg],
          shared := k'.shared,
                  hsSecret := HsSecret(c, k'.shared),
                      sSecret := Derive(c, HsSecret(c, k'.shared), "s hs traffic", k.transcript + [msg]),
                  cSecret := Derive(c, HsSecret(c, k'.shared), "c hs traffic", k.transcript + [msg]))
  {
    hide ReadHello, Fail, Derive, HsSecret;
    var h := ReadHello(msg, t.sid);
    FailFlow(c, t, EParam, AL_ILLEGAL_PARAMETER);
    if h.BadHello? {
      FailFlow(c, t, h.err, h.alert);
    }
  }

  lemma {:induction false} HelloFlow(c: Crypto, ch: Data, priv: Data, t: Tls, msg: Data)
    requires Flow(c, ch, priv, CoreOf(t), msg) && Active(t) && t.hs == WaitSh && |msg| >= 4 && msg[0] == HT_SERVER_HELLO
    ensures Flow(c, ch, priv, CoreOf(OnServerHello(c, Acted(t, msg, []), msg)), [])
  {
    hide ReadHello, Derive, HsSecret, OnServerHello, Flow;
    var t0 := Acted(t, msg, []);
    var k, k' := CoreOf(t), CoreOf(OnServerHello(c, t0, msg));
    if k'.state != Failed {
      HelloCore(c, t0, msg);
      HelloFields(c, ch, priv, k, msg);
      AfterHello(c, ch, priv, k', msg);
    } else {
      FailedFlow(c, ch, priv, k', []);
    }
  }

  lemma {:induction false} HelloFields(c: Crypto, ch: Data, priv: Data, k: Core, buf: Data)
    requires Flow(c, ch, priv, k, buf) && k.state != Failed && k.hs == WaitSh
    ensures k.state == Handshaking && k.msgs == [] && k.clear == buf && k.unsealed == [] && k.transcript == [ch]
    ensures k.priv == priv && !k.certReq
  {
    hide ReadHello, HsSecret, ServerHs, ClientHs;
    assert [ch] + [] == [ch];
  }

  lemma {:induction false} AfterHello(c: Crypto, ch: Data, priv: Data, k: Core, msg: Data)
    requires k.hs == WaitEe && k.state == Handshaking && k.rdOn && k.wrOn && !k.certReq && |msg| >= 4
    requires msg[0] == HT_SERVER_HELLO
    requires k.msgs == [msg] && k.clear == msg && k.unsealed == [] && k.transcript == [ch] + [msg]
    requires ReadHello(msg, k.sid).GoodHello? && c.x25519(priv, ReadHello(msg, k.sid).share) == Some(k.shared)
    requires k.hsSecret == HsSecret(c, k.shared)
    requires k.sSecret == Derive(c, HsSecret(c, k.shared), "s hs traffic", [ch] + [msg])
    requires k.cSecret == Derive(c, HsSecret(c, k.shared), "c hs traffic", [ch] + [msg])
    ensures Flow(c, ch, priv, k, [])
  {
    hide ReadHello, Derive, HsSecret, OurFinished, EmptyCert;
    assert k.msgs[1..] == [];
    assert [ch] + [msg] == [ch, msg];
  }

  lemma {:induction false} PutHsCore(c: Crypto, t: Tls, msg: Data)
    ensures CoreOf(PutHs(c, t, msg).0) == CoreOf(t).(transcript := t.transcript + [msg])
  {
    hide PutRecord;
    PutCore(c, Hashed(t, msg), CT_HS, msg);
  }

  lemma {:induction false} CcsCore(t: Tls)
    ensures CoreOf(PutCcs(t).0) == CoreOf(t)
  {
    hide Be16;
  }

  lemma {:induction false} FlightCore(c: Crypto, t: Tls)
    requires OurFlight(c, t).1
    ensures var k := CoreOf(t); var before := t.transcript + OurCert(k);
      CoreOf(OurFlight(c, t).0) == k.(transcript := before + [OurFinished(c, t.cSecret, before)])
  {
    hide PutHs, PutCcs, OurFinished, EmptyCert;
    CcsCore(t);
    var t1 := PutCcs(t).0;
    PutHsCore(c, t1, EmptyCert(t1.crCtx));
    var t2 := PutCert(c, t1).0;
    assert t.transcript + [] == t.transcript;
    PutHsCore(c, t2, OurFinished(c, t2.cSecret, t2.transcript));
  }

  lemma {:induction false} FinishedCore(c: Crypto, t: Tls, msg: Data)
    requires Active(t) && OnFinished(c, t, msg).state != Failed
    ensures |msg| == 36 && msg[4..] == VerifyData(c, t.sSecret, t.transcript)
    ensures var k, k' := CoreOf(t), CoreOf(OnFinished(c, t, msg)); var before := t.transcript + [msg] + OurCert(k);
      k' == k.(hs := Done, state := Opened, rdOn := true, wrOn := true, hsSecret := [], cSecret := k'.cSecret,
          sSecret := k'.sSecret,
               transcript := before + [OurFinished(c, t.cSecret, before)])
  {
    hide Fail, OurFlight, OurFinished, EmptyCert, VerifyData, Derive, MasterSecret;
    FailFlow(c, t, EDecode, AL_DECODE_ERROR);
    FailFlow(c, t, EFinished, AL_DECRYPT_ERROR);
    var t1 := Hashed(t, msg);
    FlightActive(c, t1);
    var (t2, ok) := OurFlight(c, t1);
    if ok {
      FlightCore(c, t1);
    } else {
      FailFlow(c, t2, ETooBig, AL_RECORD_OVERFLOW);
    }
  }

  lemma {:induction false} FlightActive(c: Crypto, t: Tls)
    ensures OurFlight(c, t).0.state == t.state
  {
    hide PutHs, PutCcs, OurFinished, EmptyCert;
    CcsCore(t);
    var t1 := PutCcs(t).0;
    PutHsCore(c, t1, EmptyCert(t1.crCtx));
    var t2 := PutCert(c, t1).0;
    PutHsCore(c, t2, OurFinished(c, t2.cSecret, t2.transcript));
  }

  lemma {:induction false} FinishedFlow(c: Crypto, ch: Data, priv: Data, t: Tls, msg: Data, rest: Data)
    requires Flow(c, ch, priv, CoreOf(t), msg + rest) && Active(t) && t.hs == WaitFin && |msg| >= 4
    requires msg[0] == HT_FINISHED
    ensures Flow(c, ch, priv, CoreOf(OnFinished(c, Acted(t, msg, rest), msg)), rest)
  {
    hide Flow, OnFinished, OurFinished, EmptyCert, VerifyData;
    var t0 := Acted(t, msg, rest);
    var k' := CoreOf(OnFinished(c, t0, msg));
    if k'.state != Failed {
      FinishedCore(c, t0, msg);
      FlowStage(c, ch, priv, CoreOf(t), msg + rest);
      AfterFinished(c, ch, priv, CoreOf(t), k', msg, rest);
    } else {
      FailedFlow(c, ch, priv, k', rest);
    }
  }

  lemma {:induction false} AfterFinished(c: Crypto, ch: Data, priv: Data, k: Core, k': Core, msg: Data, rest: Data)
    requires Flow(c, ch, priv, k, msg + rest) && k.state == Handshaking && k.hs == WaitFin && |msg| == 36
    requires msg[0] == HT_FINISHED
    requires msg[4..] == VerifyData(c, k.sSecret, k.transcript)
    requires var before := k.transcript + [msg] + OurCert(k);
      k' == k.(hs := Done, state := Opened, rdOn := true, wrOn := true, hsSecret := [], cSecret := k'.cSecret,
          sSecret := k'.sSecret,
               msgs := k.msgs + [msg], transcript := before + [OurFinished(c, k.cSecret, before)])
    ensures Flow(c, ch, priv, k', rest)
  {
    hide Flat, Exchanged, ServerHs, ClientHs, HsSecret, OurFinished, EmptyCert, VerifyData, Types;
    CameStep(k, k', msg, rest);
    var n := SeenAt(WaitFin, k.certReq);
    assert k'.msgs[..n + 1] == k'.msgs && k'.msgs[..n] == k.msgs && k'.msgs[n] == msg && k'.msgs[0] == k.msgs[0];
    assert [ch] + k.msgs + [msg] == [ch] + k'.msgs;
    LastType(k.certReq);
    forall i | 0 <= i < n + 1
      ensures |k'.msgs[i]| >= 4 && k'.msgs[i][0] == Types(k'.certReq)[i]
    {
      if i < n {
        assert k'.msgs[i] == k.msgs[i];
      }
    }
    assert k'.transcript == [ch] + k'.msgs[..n + 1] + Ours(c, ch, k');
  }

  lemma {:induction false} LastType(cr: bool)
    ensures Types(cr)[4 + Extra(cr)] == HT_FINISHED
  {
  }

  /** Messages after the handshake add to what was acted on and to nothing else. */
  lemma {:induction false} AfterFlow(c: Crypto, ch: Data, priv: Data, k: Core, k': Core, msg: Data, rest: Data)
    requires Flow(c, ch, priv, k, msg + rest) && k.state != Failed && k.hs == Done
    requires k' == k.(msgs := k.msgs + [msg], cSecret := k'.cSecret, sSecret := k'.sSecret)
    ensures Flow(c, ch, priv, k', rest)
  {
    hide Flat, Exchanged, ServerHs, ClientHs, OurFinished, EmptyCert, Verified;
    CameStep(k, k', msg, rest);
    var n := SeenAt(Done, k.certReq);
    assert k'.msgs[..n] == k.msgs[..n] && k'.msgs[..n - 1] == k.msgs[..n - 1] && k'.msgs[0] == k.msgs[0];
    assert forall i :: 0 <= i < n ==> k'.msgs[i] == k.msgs[i];
  }

  lemma {:induction false} KeyUpdateCore(c: Crypto, t: Tls, msg: Data)
    requires Active(t) && t.rdOn && t.wrOn && OnKeyUpdate(c, t, msg).state != Failed
    ensures var k' := CoreOf(OnKeyUpdate(c, t, msg)); k' == CoreOf(t).(cSecret := k'.cSecret, sSecret := k'.sSecret)
  {
    hide Fail, PutRecord;
    FailFlow(c, t, EDecode, AL_DECODE_ERROR);
    FailFlow(c, t, EParam, AL_ILLEGAL_PARAMETER);
    var s := c.expand(t.sSecret, "traffic upd", []);
    var t1 := SetReadKeys(c, t.(sSecret := s), s);
    PutCore(c, t1, CT_HS, KEY_UPDATE);
    var t2 := PutRecord(c, t1, CT_HS, KEY_UPDATE).0;
    FailFlow(c, t2, ETooBig, AL_RECORD_OVERFLOW);
  }

  lemma {:induction false} MessageFlow(c: Crypto, ch: Data, priv: Data, t: Tls, msg: Data, rest: Data)
    requires Flow(c, ch, priv, CoreOf(t), msg + rest) && Active(t) && |msg| >= 4
    ensures var t1 := OnMessage(c, Acted(t, msg, rest), msg);
      && (!Straddles(t.hs, t1.hs, rest) ==> Flow(c, ch, priv, CoreOf(t1), rest))
      && (Straddles(t.hs, t1.hs, rest) ==> t1.state != Closed)
  {
    hide Flow, Fail, OnServerHello, OnEncryptedExtensions, OnFinished, OnKeyUpdate, OnCert, OnCertVerify, OnCertRequest;
    var t0 := Acted(t, msg, rest);
    var t1 := OnMessage(c, t0, msg);
    FailFlow(c, t0, EUnexpected, AL_UNEXPECTED);
    if t1.state == Failed {
      FailedFlow(c, ch, priv, CoreOf(t1), rest);
    } else if t.hs == WaitSh {
      HelloCore(c, t0, msg);
      if rest == [] {
        assert msg + rest == msg;
        HelloFlow(c, ch, priv, t, msg);
      }
    } else if t.hs == WaitEe {
      ExtFlow(c, ch, priv, t, msg, rest);
    } else if t.hs == WaitCertCr && msg[0] == HT_CERT_REQ {
      CertReqFlow(c, ch, priv, t, msg, rest);
    } else if t.hs == WaitCertCr || t.hs == WaitCert {
      CertFlow(c, ch, priv, t, msg, rest);
    } else if t.hs == WaitCv {
      CertVerifyFlow(c, ch, priv, t, msg, rest);
    } else if t.hs == WaitFin {
      FinishedCore(c, t0, msg);
      FinishedFlow(c, ch, priv, t, msg, rest);
    } else {
      FlowStage(c, ch, priv, CoreOf(t), msg + rest);
      if msg[0] == HT_KEY_UPDATE {
        KeyUpdateCore(c, t0, msg);
      }
      AfterFlow(c, ch, priv, CoreOf(t), CoreOf(t1), msg, rest);
    }
  }

  lemma {:induction false} MessagesFlow(c: Crypto, ch: Data, priv: Data, t: Tls, buf: Data)
    requires Flow(c, ch, priv, CoreOf(t), buf)
    ensures Flow(c, ch, priv, CoreOf(Messages(c, t, buf)), Messages(c, t, buf).hsbuf)
    decreases |buf|
  {
    hide Flow, Fail, OnMessage;
    assert CoreOf(t.(hsbuf := buf)) == CoreOf(t);
    if Active(t) && |buf| >= 4 {
      var mlen := Get24(buf, 1);
      if mlen > MAX_HSMSG {
        FailFlow(c, t, ETooBig, AL_DECODE_ERROR);
        FailedFlow(c, ch, priv, CoreOf(Messages(c, t, buf)), buf);
      } else if |buf| >= 4 + mlen {
        var msg, rest := buf[..4 + mlen], buf[4 + mlen..];
        assert buf == msg + rest;
        MessageFlow(c, ch, priv, t, msg, rest);
        var t1 := OnMessage(c, Acted(t, msg, rest), msg);
        if Straddles(t.hs, t1.hs, rest) {
          StraddleFails(c, t1);
          FailedFlow(c, ch, priv, CoreOf(Messages(c, t, buf)), rest);
        } else {
          MessagesFlow(c, ch, priv, t1, rest);
        }
      }
    }
  }

  lemma {:induction false} StraddleFails(c: Crypto, t: Tls)
    requires t.state != Closed
    ensures Unexpected(c, t).state == Failed
  {
    hide PutRecord;
    if Active(t) {
      FailFlow(c, t, EUnexpected, AL_UNEXPECTED);
    }
  }

  lemma {:induction false} HandshakeFlow(c: Crypto, ch: Data, priv: Data, t: Tls, p: Data)
    requires Flow(c, ch, priv, CoreOf(t), t.hsbuf) && Active(t)
    ensures Flow(c, ch, priv, CoreOf(OnHandshake(c, t, p)), OnHandshake(c, t, p).hsbuf)
  {
    hide Flow, Fail, Messages;
    var t1 := OnHandshake(c, t, p);
    FailFlow(c, t, EDecode, AL_UNEXPECTED);
    FailFlow(c, t, ETooBig, AL_RECORD_OVERFLOW);
    if t1.state == Failed {
      FailedFlow(c, ch, priv, CoreOf(t1), t1.hsbuf);
    } else {
      var tr := if t.rdOn then t.trace.(unsealed := t.trace.unsealed + p) else t.trace.(clear := t.trace.clear + p);
      Arrived(c, ch, priv, CoreOf(t), CoreOf(t.(trace := tr)), t.hsbuf, p);
      MessagesFlow(c, ch, priv, t.(trace := tr), t.hsbuf + p);
    }
  }

  lemma {:induction false} Arrived(c: Crypto, ch: Data, priv: Data, k: Core, k': Core, buf: Data, p: Data)
    requires Flow(c, ch, priv, k, buf) && k.state != Failed
    requires k' == if k.rdOn then k.(unsealed := k.unsealed + p) else k.(clear := k.clear + p)
    ensures Flow(c, ch, priv, k', buf + p)
  {
    hide Flat, Exchanged, ServerHs, ClientHs, HsSecret, OurFinished, EmptyCert, Verified;
    if k.rdOn {
      assert Flat(k.msgs[1..]) + buf + p == Flat(k.msgs[1..]) + (buf + p);
    }
  }

  lemma {:induction false} AlertFlow(c: Crypto, ch: Data, priv: Data, t: Tls, p: Data)
    requires Flow(c, ch, priv, CoreOf(t), t.hsbuf) && Active(t)
    ensures Flow(c, ch, priv, CoreOf(OnAlert(c, t, p)), OnAlert(c, t, p).hsbuf)
  {
    hide Flow, Fail;
    var t1 := OnAlert(c, t, p);
    FailFlow(c, t, EDecode, AL_DECODE_ERROR);
    FailFlow(c, t, EAlert, AL_NONE);
    if t1.state == Failed {
      FailedFlow(c, ch, priv, CoreOf(t1), t1.hsbuf);
    } else {
      ClosedFlow(c, ch, priv, CoreOf(t), CoreOf(t1), t.hsbuf);
    }
  }

  lemma {:induction false} ClosedFlow(c: Crypto, ch: Data, priv: Data, k: Core, k': Core, buf: Data)
    requires Flow(c, ch, priv, k, buf) && k.state != Failed && (k' == k || (k.hs == Done && k' == k.(state := Closed)))
    ensures Flow(c, ch, priv, k', buf)
  {
    hide Flat, Exchanged, ServerHs, ClientHs, HsSecret, OurFinished, EmptyCert, Verified;
  }

  lemma {:induction false} ContentFlow(c: Crypto, ch: Data, priv: Data, t: Tls, kind: byte, p: Data)
    requires Flow(c, ch, priv, CoreOf(t), t.hsbuf) && Active(t)
    ensures Flow(c, ch, priv, CoreOf(OnContent(c, t, kind, p)), OnContent(c, t, kind, p).hsbuf)
  {
    hide Flow, Fail, OnAlert, OnHandshake;
    var t1 := OnContent(c, t, kind, p);
    FailFlow(c, t, EUnexpected, AL_UNEXPECTED);
    FailFlow(c, t, ETooBig, AL_INTERNAL_ERROR);
    if t1.state == Failed {
      FailedFlow(c, ch, priv, CoreOf(t1), t1.hsbuf);
    } else if kind == CT_HS {
      HandshakeFlow(c, ch, priv, t, p);
    } else if kind == CT_ALERT {
      AlertFlow(c, ch, priv, t, p);
    } else {
      assert CoreOf(t1) == CoreOf(t);
    }
  }

  lemma {:induction false} RecordFlow(c: Crypto, ch: Data, priv: Data, t: Tls, r: Data)
    requires Flow(c, ch, priv, CoreOf(t), t.hsbuf) && Active(t) && |r| >= 5
    ensures Flow(c, ch, priv, CoreOf(OnRecord(c, t, r)), OnRecord(c, t, r).hsbuf)
  {
    hide Flow, Fail, OnAlert, OnContent, OnPlaintext, Open;
    var t1 := OnRecord(c, t, r);
    FailFlow(c, t, EUnexpected, AL_UNEXPECTED);
    FailFlow(c, t, EDecode, AL_DECODE_ERROR);
    FailFlow(c, t, EDecrypt, AL_BAD_RECORD_MAC);
    if t1.state == Failed {
      FailedFlow(c, ch, priv, CoreOf(t1), t1.hsbuf);
    } else {
      AlertFlow(c, ch, priv, t, r[5..]);
      ContentFlow(c, ch, priv, t, CT_HS, r[5..]);
      var o := Open(c, t, r);
      if o.Some? {
        var t2 := t.(rdSeq := (t.rdSeq + 1) % W64);
        assert CoreOf(t2) == CoreOf(t);
        PlaintextFlow(c, ch, priv, t2, o.value);
      }
    }
  }

  lemma {:induction false} PlaintextFlow(c: Crypto, ch: Data, priv: Data, t: Tls, p: Data)
    requires Flow(c, ch, priv, CoreOf(t), t.hsbuf) && Active(t)
    ensures Flow(c, ch, priv, CoreOf(OnPlaintext(c, t, p)), OnPlaintext(c, t, p).hsbuf)
  {
    hide Flow, Fail, OnContent;
    var t1 := OnPlaintext(c, t, p);
    FailFlow(c, t, EUnexpected, AL_UNEXPECTED);
    FailFlow(c, t, ETooBig, AL_RECORD_OVERFLOW);
    var n := Unpadded(p);
    if t1.state == Failed {
      FailedFlow(c, ch, priv, CoreOf(t1), t1.hsbuf);
    } else {
      ContentFlow(c, ch, priv, t, p[n - 1], p[..n - 1]);
    }
  }

  lemma {:induction false} FilledFlow(c: Crypto, ch: Data, priv: Data, t: Tls, rec: Data)
    requires Flow(c, ch, priv, CoreOf(t), t.hsbuf) && Active(t)
    ensures Flow(c, ch, priv, CoreOf(OnFilled(c, t.(rec := rec))), OnFilled(c, t.(rec := rec)).hsbuf)
  {
    hide Flow, Fail, OnRecord;
    var t1 := t.(rec := rec);
    assert CoreOf(t1) == CoreOf(t);
    FailFlow(c, t1, EDecode, AL_UNEXPECTED);
    FailFlow(c, t1, ETooBig, AL_RECORD_OVERFLOW);
    var t2 := OnFilled(c, t1);
    if t2.state == Failed {
      FailedFlow(c, ch, priv, CoreOf(t2), t2.hsbuf);
    } else if |rec| >= 5 {
      RecordFlow(c, ch, priv, t1, rec);
      assert CoreOf(OnRecord(c, t1, rec).(rec := [])) == CoreOf(OnRecord(c, t1, rec));
    }
  }

  lemma {:induction false} FeedFlow(c: Crypto, ch: Data, priv: Data, t: Tls, p: Data)
    requires Flow(c, ch, priv, CoreOf(t), t.hsbuf) && RecOk(t)
    ensures Flow(c, ch, priv, CoreOf(Feed(c, t, p)), Feed(c, t, p).hsbuf)
    decreases |p|
  {
    hide Flow, OnFilled;
    if |p| > 0 && Active(t) {
      var k := if Want(t.rec) - |t.rec| > |p| then |p| else Want(t.rec) - |t.rec|;
      FeedStep(c, t, p, k);
      FilledFlow(c, ch, priv, t, t.rec + p[..k]);
      FilledOk(c, t, p[..k]);
      FeedFlow(c, ch, priv, OnFilled(c, t.(rec := t.rec + p[..k])), p[k..]);
    }
  }

  // ---------------------------------------------------------------------------
  // What came in is what the trace says came in
  // ---------------------------------------------------------------------------

  /** Handshake bytes in the clear, handshake bytes out of the AEAD, application data. */
  function Inflow(t: Tls): (Data, Data, Data) {
    (t.trace.clear, t.trace.unsealed, t.app)
  }

  lemma {:induction false} PutInflow(c: Crypto, t: Tls, kind: byte, p: Data)
    ensures Inflow(PutRecord(c, t, kind, p).0) == Inflow(t)
  {
    hide PutRecord;
    PutCore(c, t, kind, p);
    PutFrame(c, t, kind, p);
  }

  lemma {:induction false} FailInflow(c: Crypto, t: Tls, why: Err, alert: byte)
    ensures Inflow(Fail(c, t, why, alert)) == Inflow(t)
  {
    hide PutRecord;
    PutInflow(c, t.(state := Failed, err := why, alert := alert), CT_ALERT, [2, alert]);
  }

  lemma {:induction false} HelloInflow(c: Crypto, t: Tls, msg: Data)
    ensures Inflow(OnServerHello(c, t, msg)) == Inflow(t)
  {
    hide Fail, ReadHello, Derive, HsSecret;
    var h := ReadHello(msg, t.sid);
    FailInflow(c, t, EParam, AL_ILLEGAL_PARAMETER);
    if h.BadHello? {
      FailInflow(c, t, h.err, h.alert);
    }
  }

  lemma {:induction false} ExtInflow(c: Crypto, t: Tls, msg: Data)
    ensures Inflow(OnEncryptedExtensions(c, t, msg)) == Inflow(t)
  {
    hide Fail, ReadEncExts, Sub16;
    FailInflow(c, t, EDecode, AL_DECODE_ERROR);
    var (ext, r) := Sub16(Body(msg));
    var x := ReadEncExts(ext, t.alpn, t.alpnOk);
    if x.BadEnc? {
      FailInflow(c, t.(alpnOk := x.alpnOk), x.err, x.alert);
    }
  }

  lemma {:induction false} CertsInflow(c: Crypto, t: Tls, msg: Data)
    ensures Inflow(OnCertRequest(c, t, msg)) == Inflow(t)
    ensures Inflow(OnCert(c, t, msg)) == Inflow(t)
    ensures Inflow(OnCertVerify(c, t, msg)) == Inflow(t)
  {
    hide Fail, Take, U8, Sub16, CertShapeOk;
    FailInflow(c, t, EDecode, AL_DECODE_ERROR);
  }

  lemma {:induction false} PutHsInflow(c: Crypto, t: Tls, msg: Data)
    ensures Inflow(PutHs(c, t, msg).0) == Inflow(t)
  {
    hide PutRecord;
    PutInflow(c, Hashed(t, msg), CT_HS, msg);
  }

  lemma {:induction false} FlightInflow(c: Crypto, t: Tls)
    ensures Inflow(OurFlight(c, t).0) == Inflow(t)
  {
    hide PutHs, PutPlain, OurFinished, EmptyCert;
    assert Inflow(PutCcs(t).0) == Inflow(t) by {
      CcsCore(t);
      PutPlainFrame(t, CT_CCS, 3, [1]);
    }
    hide PutCcs;
    var t1 := PutCcs(t).0;
    PutHsInflow(c, t1, EmptyCert(t1.crCtx));
    var t2 := PutCert(c, t1).0;
    PutHsInflow(c, t2, OurFinished(c, t2.cSecret, t2.transcript));
  }

  lemma {:induction false} FinishedInflow(c: Crypto, t: Tls, msg: Data)
    ensures Inflow(OnFinished(c, t, msg)) == Inflow(t)
  {
    hide Fail, OurFlight, VerifyData, Derive, MasterSecret;
    FailInflow(c, t, EDecode, AL_DECODE_ERROR);
    FailInflow(c, t, EFinished, AL_DECRYPT_ERROR);
    FlightInflow(c, Hashed(t, msg));
    FailInflow(c, OurFlight(c, Hashed(t, msg)).0, ETooBig, AL_RECORD_OVERFLOW);
  }

  lemma {:induction false} KeyUpdateInflow(c: Crypto, t: Tls, msg: Data)
    ensures Inflow(OnKeyUpdate(c, t, msg)) == Inflow(t)
  {
    hide Fail, PutRecord;
    FailInflow(c, t, EDecode, AL_DECODE_ERROR);
    FailInflow(c, t, EParam, AL_ILLEGAL_PARAMETER);
    var s := c.expand(t.sSecret, "traffic upd", []);
    var t1 := SetReadKeys(c, t.(sSecret := s), s);
    PutInflow(c, t1, CT_HS, KEY_UPDATE);
    FailInflow(c, PutRecord(c, t1, CT_HS, KEY_UPDATE).0, ETooBig, AL_RECORD_OVERFLOW);
  }

  lemma {:induction false} MessageInflow(c: Crypto, t: Tls, msg: Data)
    requires |msg| >= 4
    ensures Inflow(OnMessage(c, t, msg)) == Inflow(t)
  {
    hide Fail, OnServerHello, OnEncryptedExtensions, OnFinished, OnKeyUpdate, OnCert, OnCertVerify, OnCertRequest;
    FailInflow(c, t, EUnexpected, AL_UNEXPECTED);
    HelloInflow(c, t, msg);
    ExtInflow(c, Hashed(t, msg), msg);
    CertsInflow(c, t, msg);
    CertsInflow(c, Hashed(t, msg), msg);
    FinishedInflow(c, t, msg);
    KeyUpdateInflow(c, t, msg);
  }

  lemma {:induction false} MessagesInflow(c: Crypto, t: Tls, buf: Data)
    ensures Inflow(Messages(c, t, buf)) == Inflow(t)
    decreases |buf|
  {
    hide Fail, OnMessage, Inflow, Acted;
    BufInflow(t, buf);
    if Active(t) && |buf| >= 4 {
      var mlen := Get24(buf, 1);
      FailInflow(c, t, ETooBig, AL_DECODE_ERROR);
      BufInflow(Fail(c, t, ETooBig, AL_DECODE_ERROR), buf);
      if mlen <= MAX_HSMSG && |buf| >= 4 + mlen {
        var msg, rest := buf[..4 + mlen], buf[4 + mlen..];
        ActedInflow(t, msg, rest);
        MessageInflow(c, Acted(t, msg, rest), msg);
        var t1 := OnMessage(c, Acted(t, msg, rest), msg);
        FailInflow(c, t1, EUnexpected, AL_UNEXPECTED);
        BufInflow(Unexpected(c, t1), rest);
        MessagesInflow(c, t1, rest);
      }
    }
  }

  lemma {:induction false} BufInflow(t: Tls, buf: Data)
    ensures Inflow(t.(hsbuf := buf)) == Inflow(t)
  {
  }

  lemma {:induction false} ActedInflow(t: Tls, msg: Data, rest: Data)
    ensures Inflow(Acted(t, msg, rest)) == Inflow(t)
  {
  }

  /** What content of a type may add: handshake bytes to the stream of its protection, application data once done. */
  ghost predicate Took(t: Tls, t': Tls, kind: byte, p: Data) {
    var f, f' := Inflow(t), Inflow(t');
    || f' == f
    || (kind == CT_HS && f' == if t.rdOn then f.(1 := f.1 + p) else f.(0 := f.0 + p))
    || (kind == CT_APP && t.hs == Done && f' == f.(2 := f.2 + p))
  }

  lemma {:induction false} AlertInflow(c: Crypto, t: Tls, p: Data)
    ensures Inflow(OnAlert(c, t, p)) == Inflow(t)
  {
    hide Fail;
    FailInflow(c, t, EDecode, AL_DECODE_ERROR);
    FailInflow(c, t, EAlert, AL_NONE);
  }

  lemma {:induction false} HandshakeInflow(c: Crypto, t: Tls, p: Data)
    ensures Took(t, OnHandshake(c, t, p), CT_HS, p)
  {
    hide Fail, Messages;
    FailInflow(c, t, EDecode, AL_UNEXPECTED);
    FailInflow(c, t, ETooBig, AL_RECORD_OVERFLOW);
    var tr := if t.rdOn then t.trace.(unsealed := t.trace.unsealed + p) else t.trace.(clear := t.trace.clear + p);
    MessagesInflow(c, t.(trace := tr), t.hsbuf + p);
  }

  lemma {:induction false} ContentInflow(c: Crypto, t: Tls, kind: byte, p: Data)
    ensures Took(t, OnContent(c, t, kind, p), kind, p)
  {
    hide Fail, OnHandshake, OnAlert;
    FailInflow(c, t, EUnexpected, AL_UNEXPECTED);
    FailInflow(c, t, ETooBig, AL_INTERNAL_ERROR);
    AlertInflow(c, t, p);
    HandshakeInflow(c, t, p);
  }

  lemma {:induction false} PlaintextInflow(c: Crypto, t: Tls, p: Data)
    ensures Inflow(OnPlaintext(c, t, p)) == Inflow(t)
      || (Unpadded(p) > 0 && Took(t, OnPlaintext(c, t, p), p[Unpadded(p) - 1], p[..Unpadded(p) - 1]))
  {
    hide Fail, OnContent, Took;
    FailInflow(c, t, EUnexpected, AL_UNEXPECTED);
    FailInflow(c, t, ETooBig, AL_RECORD_OVERFLOW);
    var n := Unpadded(p);
    if n > 0 {
      ContentInflow(c, t, p[n - 1], p[..n - 1]);
    }
  }

  /** The record holds content p of the given type, and the AEAD opened it under the read key. */
  ghost predicate OpenedAs(c: Crypto, t: Tls, r: Data, kind: byte, p: Data)
    requires |r| >= 5
  {
    var o := Open(c, t, r);
    t.rdOn && o.Some? && var n := Unpadded(o.value);
    n > 0 && o.value[n - 1] == kind && o.value[..n - 1] == p
  }

  /**
   A record adds to at most one inflow: to the clear one only before there are keys, to the
   unsealed one and to the application data only what the AEAD opened.
   */
  lemma {:induction false} RecordInflow(c: Crypto, t: Tls, r: Data)
    requires |r| >= 5
    ensures var t' := OnRecord(c, t, r);
      || Inflow(t') == Inflow(t)
      || (!t.rdOn && r[0] == CT_HS && Took(t, t', CT_HS, r[5..]))
      || (exists kind, p :: OpenedAs(c, t, r, kind, p) && Took(t, t', kind, p))
  {
    hide Fail, OnContent, Open, OnPlaintext, OnAlert;
    FailInflow(c, t, EUnexpected, AL_UNEXPECTED);
    FailInflow(c, t, EDecode, AL_DECODE_ERROR);
    FailInflow(c, t, EDecrypt, AL_BAD_RECORD_MAC);
    AlertInflow(c, t, r[5..]);
    ContentInflow(c, t, CT_HS, r[5..]);
    var o := Open(c, t, r);
    if o.Some? {
      var t1, n := t.(rdSeq := (t.rdSeq + 1) % W64), Unpadded(o.value);
      PlaintextInflow(c, t1, o.value);
      if n > 0 && t.rdOn {
        assert OpenedAs(c, t, r, o.value[n - 1], o.value[..n - 1]);
      }
    }
  }

  // ---------------------------------------------------------------------------
  // Every run
  // ---------------------------------------------------------------------------

  datatype Event = FeedEv(p: Data) | WriteEv(p: Data) | CloseEv | SentEv(n: nat) | ReadEv(n: nat)

  function StepOn(c: Crypto, t: Tls, e: Event): Tls {
    match e
    case FeedEv(p) => Feed(c, t, p)
    case WriteEv(p) => Write(c, t, p).0
    case CloseEv => Close(c, t)
    case SentEv(n) => OutDone(t, n)
    case ReadEv(n) => Read(t, n).0
  }

  function RunOn(c: Crypto, t: Tls, es: seq<Event>): Tls {
    if |es| == 0 then t else StepOn(c, RunOn(c, t, es[..|es| - 1]), es[|es| - 1])
  }

  ghost predicate EngineOk(c: Crypto, ch: Data, priv: Data, t: Tls) {
    WriteOk(ViewOf(t)) && RecOk(t) && Flow(c, ch, priv, CoreOf(t), t.hsbuf)
  }

  lemma {:induction false} StartOk(c: Crypto, ch: Data, alpn: Data, sid: Data, priv: Data)
    ensures EngineOk(c, ch, priv, Start(ch, alpn, sid, priv))
  {
    hide Be16;
    assert [ch] + [] == [ch];
  }

  lemma {:induction false} WriteStep(c: Crypto, ch: Data, priv: Data, t: Tls, p: Data)
    requires EngineOk(c, ch, priv, t)
    ensures EngineOk(c, ch, priv, Write(c, t, p).0)
  {
    hide WriteOk, Flow, PutRecord, Fail;
    if t.state == Opened && !t.sentClose {
      PutWrites(c, t, CT_APP, p);
      PutFrame(c, t, CT_APP, p);
      PutCore(c, t, CT_APP, p);
      var (t1, ok) := PutRecord(c, t, CT_APP, p);
      FailWrites(c, t1, ETooBig, AL_RECORD_OVERFLOW);
      FailEnds(c, t1, ETooBig, AL_RECORD_OVERFLOW);
      FailFlow(c, t1, ETooBig, AL_RECORD_OVERFLOW);
      FailedFlow(c, ch, priv, CoreOf(FailBuf(c, t1)), FailBuf(c, t1).hsbuf);
    }
  }

  lemma {:induction false} CloseStep(c: Crypto, ch: Data, priv: Data, t: Tls)
    requires EngineOk(c, ch, priv, t)
    ensures EngineOk(c, ch, priv, Close(c, t))
  {
    hide Numbered, Flow, PutRecord;
    if !t.sentClose && t.wrOn && t.hs == Done {
      var t1 := t.(sentClose := true);
      NumberedFields(ViewOf(t), ViewOf(t1));
      PutView(c, t1, CT_ALERT, [1, AL_CLOSE_NOTIFY]);
      PutFrame(c, t1, CT_ALERT, [1, AL_CLOSE_NOTIFY]);
      PutCore(c, t1, CT_ALERT, [1, AL_CLOSE_NOTIFY]);
      var t2 := PutRecord(c, t1, CT_ALERT, [1, AL_CLOSE_NOTIFY]).0;
      NumberedFields(ViewOf(t2), ViewOf(Close(c, t)));
      assert CoreOf(Close(c, t)) == CoreOf(t2) == CoreOf(t1) == CoreOf(t);
    }
  }

  lemma {:induction false} OutStep(c: Crypto, ch: Data, priv: Data, t: Tls, out: Data)
    requires EngineOk(c, ch, priv, t)
    ensures EngineOk(c, ch, priv, t.(out := out))
  {
    hide WriteOk, Flow;
    assert CoreOf(t.(out := out)) == CoreOf(t) && ViewOf(t.(out := out)) == ViewOf(t);
  }

  lemma {:induction false} AppStep(c: Crypto, ch: Data, priv: Data, t: Tls, app: Data)
    requires EngineOk(c, ch, priv, t) && (app == [] || t.app != [])
    ensures EngineOk(c, ch, priv, t.(app := app))
  {
    hide Numbered, Flow;
    NumberedFields(ViewOf(t), ViewOf(t.(app := app)));
    assert CoreOf(t.(app := app)) == CoreOf(t);
  }

  /** Whatever the server sends and however it is cut up, whatever is written, read or closed. */
  lemma {:induction false} RunOk(c: Crypto, ch: Data, alpn: Data, sid: Data, priv: Data, es: seq<Event>)
    requires IvLen(c)
    ensures EngineOk(c, ch, priv, RunOn(c, Start(ch, alpn, sid, priv), es))
    decreases |es|
  {
    hide EngineOk, Feed, Write, Close;
    if |es| == 0 {
      StartOk(c, ch, alpn, sid, priv);
    } else {
      RunOk(c, ch, alpn, sid, priv, es[..|es| - 1]);
      var t, e := RunOn(c, Start(ch, alpn, sid, priv), es[..|es| - 1]), es[|es| - 1];
      match e {
        case FeedEv(p) => FeedStepOk(c, ch, priv, t, p);
        case WriteEv(p) => WriteStep(c, ch, priv, t, p);
        case CloseEv => CloseStep(c, ch, priv, t);
        case SentEv(n) => OutStep(c, ch, priv, t, OutDone(t, n).out);
        case ReadEv(n) => AppStep(c, ch, priv, t, Read(t, n).0.app);
      }
    }
  }

  lemma {:induction false} FeedStepOk(c: Crypto, ch: Data, priv: Data, t: Tls, p: Data)
    requires EngineOk(c, ch, priv, t) && IvLen(c)
    ensures EngineOk(c, ch, priv, Feed(c, t, p))
  {
    hide WriteOk, Flow, Feed;
    FeedWrites(c, t, p);
    FeedFlow(c, ch, priv, t, p);
  }

  /**
   A run that is open acted on the server's flight in order, each message hashed once; all but
   the ServerHello came out of the AEAD; the Finished is the HMAC of the transcript before it.
   */
  lemma {:induction false} OpenRun(c: Crypto, ch: Data, alpn: Data, sid: Data, priv: Data, es: seq<Event>, t: Tls)
    requires IvLen(c) && t == RunOn(c, Start(ch, alpn, sid, priv), es) && t.state == Opened
    ensures t.hs == Done && 5 + Extra(t.certReq) <= |t.trace.msgs|
    ensures var m, n := t.trace.msgs, 5 + Extra(t.certReq); var shared := t.trace.shared;
      && (forall i :: 0 <= i < n ==> |m[i]| >= 4 && m[i][0] == Types(t.certReq)[i])
      && t.transcript == [ch] + m[..n] + Ours(c, ch, CoreOf(t))
      && t.trace.clear == m[0] && t.trace.unsealed == Flat(m[1..]) + t.hsbuf
      && Exchanged(c, priv, m[0], t.sid, shared)
      && Verified(c, ServerHs(c, shared, ch, m[0]), m[n - 1], [ch] + m[..n - 1])
  {
    hide WriteOk, Exchanged, Verified, RunOn, Flat, ServerHs;
    RunOk(c, ch, alpn, sid, priv, es);
  }

  /** In every run: no early data, no nonce twice under one key, and silence after close_notify. */
  lemma {:induction false} SafeRun(c: Crypto, ch: Data, alpn: Data, sid: Data, priv: Data, es: seq<Event>, t: Tls)
    requires IvLen(c) && t == RunOn(c, Start(ch, alpn, sid, priv), es)
    ensures t.app != [] ==> t.hs == Done
    ensures var s := t.trace.sent;
      forall i, j :: 0 <= i < j < |s| && s[i].sealed && s[j].sealed && s[i].epoch == s[j].epoch ==>
        s[i].number < s[j].number && (s[j].number < W64 ==> s[i].nonce != s[j].nonce)
    ensures var s, at := t.trace.sent, t.trace.closeAt; t.sentClose ==>
      at <= |s| <= at + 1 && (|s| == at + 1 ==> Fatal(s[at]) && t.state == Failed)
  {
    hide Flow, RunOn;
    RunOk(c, ch, alpn, sid, priv, es);
  }
}
