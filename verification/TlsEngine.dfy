/**
 The TLS 1.3 client engine (src/net/tls.c): one record of state that every handler replaces.
 Hashing, key derivation, the AEAD and X25519 are whatever functions a Crypto holds.
 */
module TlsEngine {
  import opened Words
  import opened Bytes

  const MAX_PLAIN: nat := 16384
  const MAX_RECORD: nat := MAX_PLAIN + 256
  const MAX_HSMSG: nat := 65536
  const MAX_APPBUF: nat := 1024 * 1024
  const OUT_LIMIT: nat := MAX_APPBUF + 64 * 1024
  const TAG_LEN: nat := 16

  // Record content types
  const CT_CCS: byte := 20
  const CT_ALERT: byte := 21
  const CT_HS: byte := 22
  const CT_APP: byte := 23

  // Handshake message types
  const HT_SERVER_HELLO: byte := 2
  const HT_NEW_TICKET: byte := 4
  const HT_ENC_EXT: byte := 8
  const HT_CERT: byte := 11
  const HT_CERT_REQ: byte := 13
  const HT_CERT_VERIFY: byte := 15
  const HT_FINISHED: byte := 20
  const HT_KEY_UPDATE: byte := 24

  // Alerts
  const AL_CLOSE_NOTIFY: byte := 0
  const AL_UNEXPECTED: byte := 10
  const AL_BAD_RECORD_MAC: byte := 20
  const AL_RECORD_OVERFLOW: byte := 22
  const AL_HANDSHAKE_FAILURE: byte := 40
  const AL_ILLEGAL_PARAMETER: byte := 47
  const AL_DECODE_ERROR: byte := 50
  const AL_DECRYPT_ERROR: byte := 51
  const AL_PROTOCOL_VERSION: byte := 70
  const AL_INTERNAL_ERROR: byte := 80
  const AL_USER_CANCELED: byte := 90
  const AL_MISSING_EXTENSION: byte := 109
  const AL_UNSUPPORTED_EXT: byte := 110
  const AL_NONE: byte := 255

  const EXT_ALPN: nat := 16
  const EXT_SUPPORTED_VERS: nat := 43
  const EXT_KEY_SHARE: nat := 51
  const GROUP_X25519: nat := 0x001d
  const TLS13: nat := 0x0304
  const SUITE_AES128GCM: nat := 0x1301
  const SUITE_CHACHA: nat := 0x1303

  const HRR_RANDOM: seq<byte> := [
    0xcf, 0x21, 0xad, 0x74, 0xe5, 0x9a, 0x61, 0x11, 0xbe, 0x1d, 0x8c, 0x02,
    0x1e, 0x65, 0xb8, 0x91, 0xc2, 0xa2, 0x11, 0x16, 0x7a, 0xbb, 0x8c, 0x5e,
    0x07, 0x9e, 0x09, 0xe2, 0xc8, 0xa8, 0x33, 0x9c]

  type Data = seq<byte>

  datatype Crypto = Crypto(
    sha256: Data -> Data,
    hmac: (Data, Data) -> Data,
    extract: (Data, Data) -> Data,
    expand: (Data, string, Data) -> Data,
    x25519: (Data, Data) -> Option<Data>,
    seal: (nat, Data, Data, Data, Data) -> Data,
    open: (nat, Data, Data, Data, Data) -> Option<Data>)

  datatype St = Handshaking | Opened | Closed | Failed

  datatype Err = Ok | EAlert | EHrr | EVersion | EAlpn | EDecode | EUnexpected | EDecrypt | EFinished | EParam | ETooBig

  datatype Hs = WaitSh | WaitEe | WaitCertCr | WaitCert | WaitCv | WaitFin | Done

  /** A record queued for the server; a sealed one with the write-key epoch and its number in it. */
  datatype Sent = Sent(kind: byte, content: Data, sealed: bool, epoch: nat, number: nat, nonce: Data)

  /**
   What has happened so far.  No handler looks at it: handshake bytes that came in the clear
   and out of the AEAD, messages acted on, records queued, the shared secret.
   */
  datatype Trace = Trace(clear: Data, unsealed: Data, msgs: seq<Data>, sent: seq<Sent>, epoch: nat, number: nat,
      shared: Data, closeAt: nat)

  datatype Tls = Tls(
    state: St, err: Err, alert: byte, hs: Hs, suite: nat, compat: bool, certReq: bool, alpnOk: bool,
    rdOn: bool, wrOn: bool, sentClose: bool, alpn: Data, sid: Data, priv: Data, crCtx: Data,
    transcript: seq<Data>, hsSecret: Data, cSecret: Data, sSecret: Data,
    rdKey: Data, rdIv: Data, rdSeq: nat, wrKey: Data, wrIv: Data, wrSeq: nat,
    rec: Data, hsbuf: Data, out: Data, app: Data, trace: Trace)

  predicate Active(t: Tls) {
    t.state == Handshaking || t.state == Opened
  }

  // ---------------------------------------------------------------------------
  // Reading messages
  // ---------------------------------------------------------------------------

  /** A cursor; running past the end is remembered. */
  datatype Rd = Rd(p: Data, bad: bool)

  function Take(r: Rd, n: nat): (x: (Data, Rd))
    ensures !x.1.bad ==> !r.bad && |r.p| == n + |x.1.p|
    ensures x.1.bad ==> x.1.p == r.p
  {
    if r.bad || n > |r.p| then ([], r.(bad := true)) else (r.p[..n], r.(p := r.p[n..]))
  }

  function U8(r: Rd): (x: (nat, Rd))
    ensures !x.1.bad ==> !r.bad && |r.p| == 1 + |x.1.p|
    ensures x.0 < 256
  {
    var (b, r') := Take(r, 1);
    (if |b| == 1 then b[0] else 0, r')
  }

  function U16(r: Rd): (x: (nat, Rd))
    ensures !x.1.bad ==> !r.bad && |r.p| == 2 + |x.1.p|
  {
    var (b, r') := Take(r, 2);
    (if |b| == 2 then Get16(b, 0) else 0, r')
  }

  function U24(r: Rd): (nat, Rd) {
    var (b, r') := Take(r, 3);
    (if |b| == 3 then Get24(b, 0) else 0, r')
  }

  function Get24(m: Data, i: nat): nat
    requires i + 3 <= |m|
  {
    65536 * (m[i] as int) + 256 * (m[i + 1] as int) + m[i + 2]
  }

  /** The next n bytes as a cursor of their own. */
  function Sub(r: Rd, n: nat): (x: (Rd, Rd))
    ensures !x.1.bad ==> !r.bad && |r.p| == n + |x.1.p|
  {
    var (b, r') := Take(r, n);
    (Rd(b, r'.bad), r')
  }

  /** A two-byte length and that many bytes. */
  function Sub16(r: Rd): (x: (Rd, Rd))
    ensures !x.1.bad ==> !r.bad && |r.p| >= 2 + |x.1.p|
  {
    var (n, r') := U16(r);
    Sub(r', n)
  }

  function Body(msg: Data): Rd {
    if |msg| >= 4 then Rd(msg[4..], false) else Rd([], true)
  }

  // ---------------------------------------------------------------------------
  // Keys
  // ---------------------------------------------------------------------------

  function Flat(ms: seq<Data>): Data {
    if |ms| == 0 then [] else Flat(ms[..|ms| - 1]) + ms[|ms| - 1]
  }

  function Zeros(n: nat): (z: Data)
    ensures |z| == n
  {
    seq(n, _ => 0)
  }

  function TranscriptHash(c: Crypto, ms: seq<Data>): Data {
    c.sha256(Flat(ms))
  }

  function Derive(c: Crypto, secret: Data, lab: string, ms: seq<Data>): Data {
    c.expand(secret, lab, TranscriptHash(c, ms))
  }

  function Derived(c: Crypto, secret: Data): Data {
    c.expand(secret, "derived", c.sha256([]))
  }

  function HsSecret(c: Crypto, shared: Data): Data {
    c.extract(Derived(c, c.extract(Zeros(32), Zeros(32))), shared)
  }

  function MasterSecret(c: Crypto, hsSecret: Data): Data {
    c.extract(Derived(c, hsSecret), Zeros(32))
  }

  /** The Finished payload for a handshake traffic secret over a transcript. */
  function VerifyData(c: Crypto, secret: Data, ms: seq<Data>): Data {
    c.hmac(c.expand(secret, "finished", []), TranscriptHash(c, ms))
  }

  function SetReadKeys(c: Crypto, t: Tls, secret: Data): Tls {
    t.(rdKey := c.expand(secret, "key", []), rdIv := c.expand(secret, "iv", []), rdSeq := 0, rdOn := true)
  }

  /** New write keys start a new epoch. */
  function SetWriteKeys(c: Crypto, t: Tls, secret: Data): Tls {
    t.(wrKey := c.expand(secret, "key", []), wrIv := c.expand(secret, "iv", []), wrSeq := 0, wrOn := true,
       trace := t.trace.(epoch := t.trace.epoch + 1, number := 0))
  }

  /** Exclusive or of the low k bits. */
  function Xor(a: nat, b: nat, k: nat): (r: nat)
    ensures r < Two(k)
    decreases k
  {
    if k == 0 then 0 else (a % 2 + b % 2) % 2 + 2 * Xor(a / 2, b / 2, k - 1)
  }

  function Shifted(v: nat, i: nat): nat
    decreases i
  {
    if i == 0 then v else Shifted(v / 256, i - 1)
  }

  /** The IV with the sequence number xored into its last eight bytes. */
  function MakeNonce(iv: Data, n: nat): (r: Data)
    ensures |r| == |iv|
  {
    seq(|iv|, i requires 0 <= i < |iv| =>
      if |iv| - i <= 8 then Mixed(iv[i], Shifted(n, |iv| - 1 - i) % 256) else iv[i])
  }

  function Mixed(a: byte, b: nat): byte
    requires b < 256
  {
    assert Two(8) == 256;
    Xor(a, b, 8)
  }

  // ---------------------------------------------------------------------------
  // Writing records
  // ---------------------------------------------------------------------------

  function Queued(t: Tls, bytes: Data, s: Sent): Tls {
    t.(out := t.out + bytes, trace := t.trace.(sent := t.trace.sent + [s]))
  }

  /** A record in the clear, unless the out queue is full. */
  function PutPlain(t: Tls, kind: byte, minor: byte, p: Data): (Tls, bool) {
    if |t.out| + 5 + |p| > OUT_LIMIT then (t, false)
    else (Queued(t, [kind, 3, minor] + Be16(|p|) + p, Sent(kind, p, false, 0, 0, [])), true)
  }

  /** A record under the write key; the sequence number is a 64-bit counter. */
  function PutSealed(c: Crypto, t: Tls, kind: byte, p: Data): (Tls, bool) {
    var clen := |p| + 1 + TAG_LEN;
    if |t.out| + 5 + clen > OUT_LIMIT then (t, false)
    else
      var head: Data := [CT_APP, 3, 3] + Be16(clen);
      var nonce := MakeNonce(t.wrIv, t.wrSeq);
      var q := Queued(t, head + c.seal(t.suite, t.wrKey, nonce, head, p + [kind]),
                      Sent(kind, p, true, t.trace.epoch, t.trace.number, nonce));
      (q.(wrSeq := (t.wrSeq + 1) % W64, trace := q.trace.(number := t.trace.number + 1)), true)
  }

  function PutOne(c: Crypto, t: Tls, kind: byte, p: Data): (Tls, bool) {
    if t.wrOn then PutSealed(c, t, kind, p) else PutPlain(t, kind, 3, p)
  }

  /** Content in records of at most 2^14 bytes; stops at the first that does not fit the queue. */
  function PutRecord(c: Crypto, t: Tls, kind: byte, p: Data): (Tls, bool)
    decreases |p|
  {
    if |p| <= MAX_PLAIN then PutOne(c, t, kind, p)
    else
      var (t', ok) := PutOne(c, t, kind, p[..MAX_PLAIN]);
      if ok then PutRecord(c, t', kind, p[MAX_PLAIN..]) else (t', false)
  }

  function Wiped(t: Tls): Tls {
    t.(priv := [], hsSecret := [], cSecret := [], sSecret := [], rdKey := [], wrKey := [], rdOn := false, wrOn := false)
  }

  /** Ends the connection: an alert unless told not to, then every key is forgotten. */
  function Fail(c: Crypto, t: Tls, why: Err, alert: byte): Tls {
    if !Active(t) then t
    else
      var t1 := t.(state := Failed, err := why);
      if alert == AL_NONE then Wiped(t1)
      else Wiped(PutRecord(c, t1.(alert := alert), CT_ALERT, [2, alert]).0)
  }

  function FailBuf(c: Crypto, t: Tls): Tls {
    Fail(c, t, ETooBig, AL_RECORD_OVERFLOW)
  }

  // ---------------------------------------------------------------------------
  // The handshake
  // ---------------------------------------------------------------------------

  datatype HelloExts = BadExts(err: Err, alert: byte) | GoodExts(version: bool, share: Option<Data>)

  function ReadHelloExts(ext: Rd, version: bool, share: Option<Data>): HelloExts
    decreases |ext.p|
  {
    if |ext.p| == 0 then GoodExts(version, share)
    else
      var (kind, e1) := U16(ext);
      var (d, e2) := Sub16(e1);
      if e2.bad then BadExts(EDecode, AL_DECODE_ERROR)
      else if kind == EXT_SUPPORTED_VERS then
        var (v, d1) := U16(d);
        if v != TLS13 || d1.bad || |d1.p| != 0 then BadExts(EVersion, AL_PROTOCOL_VERSION)
        else ReadHelloExts(e2, true, share)
      else if kind == EXT_KEY_SHARE then
        var (group, d1) := U16(d);
        var (klen, d2) := U16(d1);
        var (key, d3) := Take(d2, klen);
        if d3.bad || |d3.p| != 0 then BadExts(EDecode, AL_DECODE_ERROR)
        else if group != GROUP_X25519 || klen != 32 then BadExts(EParam, AL_ILLEGAL_PARAMETER)
        else ReadHelloExts(e2, version, Some(key))
      else BadExts(EParam, AL_UNSUPPORTED_EXT)
  }

  datatype Hello = BadHello(err: Err, alert: byte) | GoodHello(suite: nat, share: Data)

  function ReadHello(msg: Data, sid: Data): Hello {
    var (version, r1) := U16(Body(msg));
    var (random, r2) := Take(r1, 32);
    var (sidLen, r3) := U8(r2);
    var (theirs, r4) := Take(r3, sidLen);
    var (suite, r5) := U16(r4);
    var (comp, r6) := U8(r5);
    if r6.bad then BadHello(EDecode, AL_DECODE_ERROR)
    else if random == HRR_RANDOM then BadHello(EHrr, AL_HANDSHAKE_FAILURE)
    else if |r6.p| == 0 then BadHello(EVersion, AL_PROTOCOL_VERSION)
    else
      var (ext, r7) := Sub16(r6);
      if ext.bad || |r7.p| != 0 then BadHello(EDecode, AL_DECODE_ERROR)
      else
        match ReadHelloExts(ext, false, None)
        case BadExts(e, a) => BadHello(e, a)
        case GoodExts(have, share) =>
          if !have || version != 0x0303 then BadHello(EVersion, AL_PROTOCOL_VERSION)
          else if theirs != sid || (suite != SUITE_AES128GCM && suite != SUITE_CHACHA) || comp != 0 then
            BadHello(EParam, AL_ILLEGAL_PARAMETER)
          else if share.None? then BadHello(EParam, AL_MISSING_EXTENSION)
          else GoodHello(suite, share.value)
  }

  function Hashed(t: Tls, msg: Data): Tls {
    t.(transcript := t.transcript + [msg])
  }

  function OnServerHello(c: Crypto, t: Tls, msg: Data): Tls {
    match ReadHello(msg, t.sid)
    case BadHello(e, a) => Fail(c, t, e, a)
    case GoodHello(suite, share) =>
      match c.x25519(t.priv, share)
      case None => Fail(c, t, EParam, AL_ILLEGAL_PARAMETER)
      case Some(shared) =>
        var t1 := Hashed(t, msg).(priv := [], suite := suite, hsSecret := HsSecret(c, shared));
        var cs := Derive(c, t1.hsSecret, "c hs traffic", t1.transcript);
        var ss := Derive(c, t1.hsSecret, "s hs traffic", t1.transcript);
        var t2 := SetWriteKeys(c, SetReadKeys(c, t1.(cSecret := cs, sSecret := ss), ss), cs);
        t2.(hs := WaitEe, trace := t2.trace.(shared := shared))
  }

  datatype EncExts = BadEnc(err: Err, alert: byte, alpnOk: bool) | GoodEnc(alpnOk: bool)

  function ReadEncExts(ext: Rd, alpn: Data, alpnOk: bool): EncExts
    decreases |ext.p|
  {
    if |ext.p| == 0 then GoodEnc(alpnOk)
    else
      var (kind, e1) := U16(ext);
      var (d, e2) := Sub16(e1);
      if e2.bad then BadEnc(EDecode, AL_DECODE_ERROR, alpnOk)
      else if kind != EXT_ALPN then ReadEncExts(e2, alpn, alpnOk)
      else if alpn == [] then BadEnc(EParam, AL_UNSUPPORTED_EXT, alpnOk)
      else
        var (list, d1) := Sub16(d);
        var (n, l1) := U8(list);
        var (name, l2) := Take(l1, n);
        if l2.bad || |l2.p| != 0 || d1.bad || |d1.p| != 0 then BadEnc(EDecode, AL_DECODE_ERROR, alpnOk)
        else if name != alpn then BadEnc(EAlpn, AL_ILLEGAL_PARAMETER, alpnOk)
        else ReadEncExts(e2, alpn, true)
  }

  function OnEncryptedExtensions(c: Crypto, t: Tls, msg: Data): Tls {
    var (ext, r) := Sub16(Body(msg));
    if ext.bad || |r.p| != 0 then Fail(c, t, EDecode, AL_DECODE_ERROR)
    else
      match ReadEncExts(ext, t.alpn, t.alpnOk)
      case BadEnc(e, a, ok) => Fail(c, t.(alpnOk := ok), e, a)
      case GoodEnc(ok) => t.(alpnOk := ok, hs := WaitCertCr)
  }

  function OnCertRequest(c: Crypto, t: Tls, msg: Data): Tls {
    var (clen, r1) := U8(Body(msg));
    var (ctx, r2) := Take(r1, clen);
    var (_, r3) := Sub16(r2);
    if r3.bad || |r3.p| != 0 then Fail(c, t, EDecode, AL_DECODE_ERROR)
    else t.(crCtx := ctx, certReq := true, hs := WaitCert)
  }

  predicate CertShapeOk(msg: Data, verify: bool) {
    var r := Body(msg);
    var r' := if verify then
                var (_, r1) := U16(r);
                var (_, r2) := Sub16(r1);
                r2
              else
                var (n, r1) := U8(r);
                var (_, r2) := Sub(r1, n);
                var (m, r3) := U24(r2);
                var (_, r4) := Sub(r3, m);
                r4;
    !r'.bad && |r'.p| == 0
  }

  function Put24(v: nat): Data {
    [v / 65536 % 256, v / 256 % 256, v % 256]
  }

  /** The empty Certificate that answers a CertificateRequest. */
  function EmptyCert(ctx: Data): Data {
    [HT_CERT] + Put24(|ctx| + 4) + [|ctx| % 256] + ctx + Put24(0)
  }

  function OurFinished(c: Crypto, secret: Data, ms: seq<Data>): Data {
    [HT_FINISHED] + Put24(32) + VerifyData(c, secret, ms)
  }

  function PutCcs(t: Tls): (Tls, bool) {
    if t.compat then PutPlain(t, CT_CCS, 3, [1]) else (t, true)
  }

  /** A handshake message of ours: hashed, then queued. */
  function PutHs(c: Crypto, t: Tls, msg: Data): (Tls, bool) {
    PutRecord(c, Hashed(t, msg), CT_HS, msg)
  }

  function PutCert(c: Crypto, t: Tls): (Tls, bool) {
    if t.certReq then PutHs(c, t, EmptyCert(t.crCtx)) else (t, true)
  }

  /** Our flight: a ChangeCipherSpec for middleboxes, an empty Certificate if asked, our Finished. */
  function OurFlight(c: Crypto, t: Tls): (Tls, bool) {
    var (t1, ok1) := PutCcs(t);
    if !ok1 then (t1, false)
    else
      var (t2, ok2) := PutCert(c, t1);
      if !ok2 then (t2, false) else PutHs(c, t2, OurFinished(c, t2.cSecret, t2.transcript))
  }

  function OnFinished(c: Crypto, t: Tls, msg: Data): Tls {
    if |msg| != 36 then Fail(c, t, EDecode, AL_DECODE_ERROR)
    else if VerifyData(c, t.sSecret, t.transcript) != msg[4..] then Fail(c, t, EFinished, AL_DECRYPT_ERROR)
    else
      var t1 := Hashed(t, msg);
      var master := MasterSecret(c, t.hsSecret);
      var cAp := Derive(c, master, "c ap traffic", t1.transcript);
      var sAp := Derive(c, master, "s ap traffic", t1.transcript);
      var (t2, ok) := OurFlight(c, t1);
      if !ok then FailBuf(c, t2)
      else
        SetWriteKeys(c, SetReadKeys(c, t2.(cSecret := cAp, sSecret := sAp), sAp), cAp)
          .(hsSecret := [], hs := Done, state := Opened)
  }

  const KEY_UPDATE: Data := [HT_KEY_UPDATE, 0, 0, 1, 0]

  function OnKeyUpdate(c: Crypto, t: Tls, msg: Data): Tls {
    if |msg| != 5 then Fail(c, t, EDecode, AL_DECODE_ERROR)
    else if msg[4] > 1 then Fail(c, t, EParam, AL_ILLEGAL_PARAMETER)
    else
      var s := c.expand(t.sSecret, "traffic upd", []);
      var t1 := SetReadKeys(c, t.(sSecret := s), s);
      if msg[4] == 1 && !t.sentClose then
        var (t2, ok) := PutRecord(c, t1, CT_HS, KEY_UPDATE);
        if !ok then FailBuf(c, t2)
        else
          var k := c.expand(t2.cSecret, "traffic upd", []);
          SetWriteKeys(c, t2.(cSecret := k), k)
      else t1
  }

  function Unexpected(c: Crypto, t: Tls): Tls {
    Fail(c, t, EUnexpected, AL_UNEXPECTED)
  }

  function OnCert(c: Crypto, t: Tls, msg: Data): Tls {
    if !CertShapeOk(msg, false) then Fail(c, t, EDecode, AL_DECODE_ERROR) else Hashed(t, msg).(hs := WaitCv)
  }

  function OnCertVerify(c: Crypto, t: Tls, msg: Data): Tls {
    if !CertShapeOk(msg, true) then Fail(c, t, EDecode, AL_DECODE_ERROR) else Hashed(t, msg).(hs := WaitFin)
  }

  /** One whole handshake message. */
  function OnMessage(c: Crypto, t: Tls, msg: Data): Tls
    requires |msg| >= 4
  {
    var kind := msg[0];
    match t.hs
    case WaitSh => if kind == HT_SERVER_HELLO then OnServerHello(c, t, msg) else Unexpected(c, t)
    case WaitEe => if kind == HT_ENC_EXT then OnEncryptedExtensions(c, Hashed(t, msg), msg) else Unexpected(c, t)
    case WaitCertCr =>
      if kind == HT_CERT_REQ then OnCertRequest(c, Hashed(t, msg), msg)
      else if kind == HT_CERT then OnCert(c, t, msg) else Unexpected(c, t)
    case WaitCert => if kind == HT_CERT then OnCert(c, t, msg) else Unexpected(c, t)
    case WaitCv => if kind == HT_CERT_VERIFY then OnCertVerify(c, t, msg) else Unexpected(c, t)
    case WaitFin => if kind == HT_FINISHED then OnFinished(c, t, msg) else Unexpected(c, t)
    case Done =>
      if kind == HT_NEW_TICKET then t
      else if kind == HT_KEY_UPDATE then OnKeyUpdate(c, t, msg) else Unexpected(c, t)
  }

  function Acted(t: Tls, msg: Data, rest: Data): Tls {
    t.(hsbuf := rest, trace := t.trace.(msgs := t.trace.msgs + [msg]))
  }

  /** What may not be left over: a message may not straddle a change of keys. */
  predicate Straddles(before: Hs, after: Hs, rest: Data) {
    (before == WaitSh || before == WaitFin) && after != before && rest != []
  }

  /** Acting on the whole messages in the buffer, one after the other. */
  function Messages(c: Crypto, t: Tls, buf: Data): Tls
    decreases |buf|
  {
    if !Active(t) || |buf| < 4 then t.(hsbuf := buf)
    else
      var mlen := Get24(buf, 1);
      if mlen > MAX_HSMSG then Fail(c, t, ETooBig, AL_DECODE_ERROR).(hsbuf := buf)
      else if |buf| < 4 + mlen then t.(hsbuf := buf)
      else
        var msg, rest := buf[..4 + mlen], buf[4 + mlen..];
        var t1 := OnMessage(c, Acted(t, msg, rest), msg);
        if Straddles(t.hs, t1.hs, rest) then Unexpected(c, t1).(hsbuf := rest)
        else Messages(c, t1, rest)
  }

  /** Handshake bytes from a record, from the clear or out of the AEAD. */
  function OnHandshake(c: Crypto, t: Tls, p: Data): Tls {
    if |p| == 0 then Fail(c, t, EDecode, AL_UNEXPECTED)
    else if |t.hsbuf| + |p| > MAX_HSMSG + 4 + MAX_PLAIN then FailBuf(c, t)
    else
      var tr := if t.rdOn then t.trace.(unsealed := t.trace.unsealed + p) else t.trace.(clear := t.trace.clear + p);
      Messages(c, t.(trace := tr), t.hsbuf + p)
  }

  function OnAlert(c: Crypto, t: Tls, p: Data): Tls {
    if |p| != 2 then Fail(c, t, EDecode, AL_DECODE_ERROR)
    else if p[1] == AL_USER_CANCELED then t
    else if p[1] == AL_CLOSE_NOTIFY && t.hs == Done then t.(state := Closed)
    else Fail(c, t, EAlert, AL_NONE).(alert := p[1])
  }

  function OnContent(c: Crypto, t: Tls, kind: byte, p: Data): Tls {
    if kind != CT_HS && t.hsbuf != [] then Unexpected(c, t)
    else if kind == CT_HS then OnHandshake(c, t, p)
    else if kind == CT_ALERT then OnAlert(c, t, p)
    else if kind == CT_APP then
      if t.hs != Done then Unexpected(c, t)
      else if |p| > 0 && |t.app| + |p| > MAX_APPBUF then Fail(c, t, ETooBig, AL_INTERNAL_ERROR)
      else t.(app := t.app + p)
    else Unexpected(c, t)
  }

  /** The content and its type: the last byte that is not zero is the type. */
  function Unpadded(p: Data): (n: nat)
    ensures n <= |p| && (n > 0 ==> p[n - 1] != 0) && forall i :: n <= i < |p| ==> p[i] == 0
  {
    if |p| == 0 || p[|p| - 1] != 0 then |p| else Unpadded(p[..|p| - 1])
  }

  /** What the AEAD makes of a record under the read key. */
  function Open(c: Crypto, t: Tls, r: Data): Option<Data>
    requires |r| >= 5
  {
    c.open(t.suite, t.rdKey, MakeNonce(t.rdIv, t.rdSeq), r[..5], r[5..])
  }

  /** What a record holds once opened. */
  function OnPlaintext(c: Crypto, t: Tls, p: Data): Tls {
    var n := Unpadded(p);
    if n == 0 then Unexpected(c, t)
    else if n - 1 > MAX_PLAIN then Fail(c, t, ETooBig, AL_RECORD_OVERFLOW)
    else OnContent(c, t, p[n - 1], p[..n - 1])
  }

  /** One whole record, header included. */
  function OnRecord(c: Crypto, t: Tls, r: Data): Tls
    requires |r| >= 5
  {
    var kind, body := r[0], r[5..];
    if kind == CT_CCS then (if t.hs == Done || body != [1] then Unexpected(c, t) else t)
    else if kind == CT_ALERT && (!t.rdOn || t.hs != Done) then OnAlert(c, t, body)
    else if !t.rdOn then (if kind == CT_HS then OnContent(c, t, CT_HS, body) else Unexpected(c, t))
    else if kind != CT_APP then Unexpected(c, t)
    else if |body| < 1 + TAG_LEN then Fail(c, t, EDecode, AL_DECODE_ERROR)
    else
      match Open(c, t, r)
      case None => Fail(c, t, EDecrypt, AL_BAD_RECORD_MAC)
      case Some(p) => OnPlaintext(c, t.(rdSeq := (t.rdSeq + 1) % W64), p)
  }

  // ---------------------------------------------------------------------------
  // The interface
  // ---------------------------------------------------------------------------

  function Want(rec: Data): nat {
    if |rec| < 5 then 5 else 5 + Get16(rec, 3)
  }

  predicate HeaderOk(rec: Data)
    requires |rec| >= 5
  {
    CT_CCS <= rec[0] <= CT_APP && rec[1] == 3
  }

  /** What a record header of exactly five bytes leads to. */
  function OnHeader(c: Crypto, t: Tls): Tls
    requires |t.rec| == 5
  {
    if !HeaderOk(t.rec) then Fail(c, t, EDecode, AL_UNEXPECTED)
    else if Get16(t.rec, 3) > MAX_RECORD then Fail(c, t, ETooBig, AL_RECORD_OVERFLOW)
    else t
  }

  /** After bytes were added to the record coming in: its header, then the whole of it. */
  function OnFilled(c: Crypto, t: Tls): Tls {
    if |t.rec| < 5 then t
    else
      var t1 := if |t.rec| == 5 then OnHeader(c, t) else t;
      if |t.rec| == 5 && (!HeaderOk(t.rec) || Get16(t.rec, 3) > MAX_RECORD) then t1
      else if |t.rec| == 5 + Get16(t.rec, 3) then OnRecord(c, t1, t.rec).(rec := [])
      else t1
  }

  /** elpis_tls_feed: bytes from the server, any amount. */
  function Feed(c: Crypto, t: Tls, p: Data): Tls
    decreases |p|
  {
    if |p| == 0 || !Active(t) || |t.rec| >= Want(t.rec) then t
    else
      var take := if Want(t.rec) - |t.rec| > |p| then |p| else Want(t.rec) - |t.rec|;
      if |t.rec| + take > 5 + MAX_RECORD then FailBuf(c, t)
      else Feed(c, OnFilled(c, t.(rec := t.rec + p[..take])), p[take..])
  }

  /** elpis_tls_write. */
  function Write(c: Crypto, t: Tls, p: Data): (Tls, bool) {
    if t.state != Opened || t.sentClose then (t, false)
    else if |p| == 0 then (t, true)
    else
      var records := (|p| + MAX_PLAIN - 1) / MAX_PLAIN;
      if |p| + records * (5 + 1 + TAG_LEN) + |t.out| > OUT_LIMIT then (t, false)
      else
        var (t1, ok) := PutRecord(c, t, CT_APP, p);
        if ok then (t1, true) else (FailBuf(c, t1), false)
  }

  /** elpis_tls_close. */
  function Close(c: Crypto, t: Tls): Tls {
    if t.sentClose || !t.wrOn || t.hs != Done then t
    else
      var t1 := PutRecord(c, t.(sentClose := true), CT_ALERT, [1, AL_CLOSE_NOTIFY]).0;
      t1.(trace := t1.trace.(closeAt := |t1.trace.sent|))
  }

  /** elpis_tls_out_done and elpis_tls_read: bytes taken from a queue. */
  function OutDone(t: Tls, n: nat): Tls {
    t.(out := if n > |t.out| then [] else t.out[n..])
  }

  function Read(t: Tls, cap: nat): (Tls, Data) {
    if |t.app| > cap then (t.(app := t.app[cap..]), t.app[..cap]) else (t.(app := []), t.app)
  }

  /** A connection that has queued its ClientHello. */
  function Start(ch: Data, alpn: Data, sid: Data, priv: Data): Tls {
    var t := Tls(Handshaking, Ok, 0, WaitSh, 0, |sid| > 0, false, false, false, false, false, alpn, sid, priv, [],
                 [ch], [], [], [], [], [], 0, [], [], 0, [], [], [], [], Trace([], [], [], [], 0, 0, [], 0));
    PutPlain(t, CT_HS, 1, ch).0
  }
}
