/**
 Where everything the TLS engine acts on or hands out came from (src/net/tls.c): over every run
 the handshake bytes and the application data are the contents of records, in order, and all
 but the handshake bytes before there are keys were opened by the AEAD.
 */
module TlsInflow {
  import opened Words
  import opened Bytes
  import opened TlsEngine
  import opened TlsFeed
  import opened TlsRun
  import opened TlsOrder

  /** A record that added something: where it began in the bytes fed, how it was protected, and its content. */
  datatype Arrival =
    | Clear(at: nat, rec: Data)
    | Sealed(at: nat, rec: Data, suite: nat, key: Data, iv: Data, number: nat, kind: byte, content: Data, done: bool)

  /**
   A clear record is a handshake record; a sealed one was opened by the AEAD, application
   data after the handshake.
   */
  ghost predicate Genuine(c: Crypto, a: Arrival) {
    match a
    case Clear(_, r) => |r| >= 5 && r[0] == CT_HS
    case Sealed(_, r, suite, key, iv, number, kind, content, done) =>
      && |r| >= 5 && (kind == CT_APP ==> done)
      && var o := c.open(suite, key, MakeNonce(iv, number), r[..5], r[5..]);
         && o.Some? && var n := Unpadded(o.value);
            n > 0 && o.value[n - 1] == kind && o.value[..n - 1] == content
  }

  /** The handshake bytes that came in the clear. */
  function InClear(s: seq<Arrival>): Data {
    if |s| == 0 then []
    else
      var a := s[|s| - 1];
      InClear(s[..|s| - 1]) + if a.Clear? && |a.rec| >= 5 then a.rec[5..] else []
  }

  /** The content of one type that came sealed. */
  function InSealed(s: seq<Arrival>, kind: byte): Data {
    if |s| == 0 then []
    else
      var a := s[|s| - 1];
      InSealed(s[..|s| - 1], kind) + if a.Sealed? && a.kind == kind then a.content else []
  }

  /** s accounts for all the engine took in, when `gone` has been read already. */
  ghost predicate Accounts(c: Crypto, s: seq<Arrival>, t: Tls, gone: Data) {
    && (forall i :: 0 <= i < |s| ==> Genuine(c, s[i]))
    && t.trace.clear == InClear(s) && t.trace.unsealed == InSealed(s, CT_HS) && gone + t.app == InSealed(s, CT_APP)
  }

  /** The records stand in the bytes fed, one behind the other; what follows byte `used` is the record coming in. */
  ghost predicate Placed(s: seq<Arrival>, t: Tls, fed: Data, used: nat) {
    && used <= |fed| && (Active(t) ==> fed[used..] == t.rec)
    && (forall i :: 0 <= i < |s| ==> StandsIn(s[i], fed, used))
    && forall i, j :: 0 <= i < j < |s| ==> s[i].at + |s[i].rec| <= s[j].at
  }

  ghost predicate StandsIn(a: Arrival, fed: Data, used: nat) {
    a.at + |a.rec| <= used <= |fed| && fed[a.at..a.at + |a.rec|] == a.rec
  }

  lemma {:induction false} SameInflow(c: Crypto, s: seq<Arrival>, t: Tls, t': Tls, gone: Data)
    requires Accounts(c, s, t, gone) && Inflow(t') == Inflow(t)
    ensures Accounts(c, s, t', gone)
  {
  }

  lemma {:induction false} Snoc(c: Crypto, s: seq<Arrival>, a: Arrival)
    requires (forall i :: 0 <= i < |s| ==> Genuine(c, s[i])) && Genuine(c, a)
    ensures forall i :: 0 <= i < |s + [a]| ==> Genuine(c, (s + [a])[i])
    ensures InClear(s + [a]) == InClear(s) + if a.Clear? && |a.rec| >= 5 then a.rec[5..] else []
    ensures forall k :: InSealed(s + [a], k) == InSealed(s, k) + if a.Sealed? && a.kind == k then a.content else []
  {
    assert (s + [a])[..|s|] == s;
  }

  /** One record. */
  lemma {:induction false} RecordAccounts(c: Crypto, s: seq<Arrival>, t: Tls, r: Data, gone: Data, at: nat)
    returns (s': seq<Arrival>)
    requires Accounts(c, s, t, gone) && |r| >= 5
    ensures Accounts(c, s', OnRecord(c, t, r), gone)
    ensures s' == s || exists a :: s' == s + [a] && a.at == at && a.rec == r
  {
    hide OnRecord, Genuine, Unpadded, MakeNonce;
    RecordInflow(c, t, r);
    var t' := OnRecord(c, t, r);
    s' := s;
    if Inflow(t') == Inflow(t) {
      SameInflow(c, s, t, t', gone);
    } else if !t.rdOn && r[0] == CT_HS && Took(t, t', CT_HS, r[5..]) {
      var a := Clear(at, r);
      assert Genuine(c, a) by { ClearGenuine(c, a); }
      Snoc(c, s, a);
      s' := s + [a];
      AppNone(gone, t.app);
    } else {
      var kind, p :| OpenedAs(c, t, r, kind, p) && Took(t, t', kind, p);
      var a := Sealed(at, r, t.suite, t.rdKey, t.rdIv, t.rdSeq, kind, p, t.hs == Done);
      assert Genuine(c, a) by { SealedGenuine(c, t, r, kind, p, at); }
      Snoc(c, s, a);
      s' := s + [a];
      assert gone + (t.app + p) == gone + t.app + p;
      AppNone(gone, t.app);
    }
  }

  lemma {:induction false} AppNone(gone: Data, app: Data)
    ensures gone + app + [] == gone + app
  {
  }

  lemma {:induction false} ClearGenuine(c: Crypto, a: Arrival)
    requires a.Clear? && |a.rec| >= 5 && a.rec[0] == CT_HS
    ensures Genuine(c, a)
  {
  }

  lemma {:induction false} SealedGenuine(c: Crypto, t: Tls, r: Data, kind: byte, p: Data, at: nat)
    requires |r| >= 5 && OpenedAs(c, t, r, kind, p) && (kind == CT_APP ==> t.hs == Done)
    ensures Genuine(c, Sealed(at, r, t.suite, t.rdKey, t.rdIv, t.rdSeq, kind, p, t.hs == Done))
  {
    hide MakeNonce, Unpadded;
  }

  // More bytes behind, of which none is used yet.
  lemma {:induction false} MoreFed(s: seq<Arrival>, t: Tls, t': Tls, fed: Data, used: nat, p: Data)
    requires Placed(s, t, fed, used) && (Active(t') ==> (fed + p)[used..] == t'.rec)
    ensures Placed(s, t', fed + p, used)
  {
    forall i | 0 <= i < |s|
      ensures StandsIn(s[i], fed + p, used)
    {
      assert StandsIn(s[i], fed, used);
      assert (fed + p)[s[i].at..s[i].at + |s[i].rec|] == fed[s[i].at..s[i].at + |s[i].rec|];
    }
  }

  // The record that was coming in is complete.
  lemma {:induction false} RecordPlaced(s: seq<Arrival>, s': seq<Arrival>, t: Tls, t': Tls, fed: Data, used: nat)
    requires Placed(s, t, fed, used) && Active(t) && t'.rec == []
    requires s' == s || exists a :: s' == s + [a] && a.at == used && a.rec == t.rec
    ensures Placed(s', t', fed, |fed|)
  {
    forall i | 0 <= i < |s'|
      ensures StandsIn(s'[i], fed, |fed|)
    {
      if i < |s| {
        assert StandsIn(s[i], fed, used) && s'[i] == s[i];
      }
    }
    forall i, j | 0 <= i < j < |s'|
      ensures s'[i].at + |s'[i].rec| <= s'[j].at
    {
      assert StandsIn(s[i], fed, used) && s'[i] == s[i];
    }
  }

  /** Bytes added to the record coming in. */
  lemma {:induction false} FilledAccounts(c: Crypto, s: seq<Arrival>, t: Tls, gone: Data, fed: Data, used: nat)
    returns (s': seq<Arrival>, used': nat)
    requires Accounts(c, s, t, gone) && Placed(s, t, fed, used) && Active(t)
    ensures Accounts(c, s', OnFilled(c, t), gone) && Placed(s', OnFilled(c, t), fed, used')
  {
    hide Accounts, Placed, OnRecord, Fail;
    s', used' := s, used;
    var t' := OnFilled(c, t);
    if |t.rec| == 5 && (!HeaderOk(t.rec) || Get16(t.rec, 3) > MAX_RECORD) {
      FailInflow(c, t, EDecode, AL_UNEXPECTED);
      FailInflow(c, t, ETooBig, AL_RECORD_OVERFLOW);
      FailEnds(c, t, EDecode, AL_UNEXPECTED);
      FailEnds(c, t, ETooBig, AL_RECORD_OVERFLOW);
      SameInflow(c, s, t, t', gone);
      Stopped(s, t, t', fed, used);
    } else if |t.rec| >= 5 && |t.rec| == 5 + Get16(t.rec, 3) {
      s' := RecordAccounts(c, s, t, t.rec, gone, used);
      SameInflow(c, s', OnRecord(c, t, t.rec), t', gone);
      RecordPlaced(s, s', t, t', fed, used);
      used' := |fed|;
    }
  }

  lemma {:induction false} Stopped(s: seq<Arrival>, t: Tls, t': Tls, fed: Data, used: nat)
    requires Placed(s, t, fed, used) && !Active(t')
    ensures Placed(s, t', fed, used)
  {
  }

  /** Any bytes fed. */
  lemma {:induction false} FeedAccounts(c: Crypto, s: seq<Arrival>, t: Tls, p: Data, gone: Data, fed: Data, used: nat)
    returns (s': seq<Arrival>, used': nat)
    requires Accounts(c, s, t, gone) && Placed(s, t, fed, used) && RecOk(t)
    ensures Accounts(c, s', Feed(c, t, p), gone) && Placed(s', Feed(c, t, p), fed + p, used')
    decreases |p|
  {
    hide Accounts, Placed, OnFilled;
    s', used' := s, used;
    if !Active(t) {
      MoreFed(s, t, t, fed, used, p);
    } else if |p| == 0 {
      assert fed + p == fed;
    } else {
      var k := if Want(t.rec) - |t.rec| > |p| then |p| else Want(t.rec) - |t.rec|;
      FeedStep(c, t, p, k);
      FilledOk(c, t, p[..k]);
      hide Feed;
      var t1 := t.(rec := t.rec + p[..k]);
      SameInflow(c, s, t, t1, gone);
      Appended(s, t, t1, fed, used, p[..k]);
      s', used' := FilledAccounts(c, s, t1, gone, fed + p[..k], used);
      s', used' := FeedAccounts(c, s', OnFilled(c, t1), p[k..], gone, fed + p[..k], used');
      assert fed + p[..k] + p[k..] == fed + p;
    }
  }

  lemma {:induction false} Appended(s: seq<Arrival>, t: Tls, t': Tls, fed: Data, used: nat, p: Data)
    requires Placed(s, t, fed, used) && Active(t) && t'.rec == t.rec + p
    ensures Placed(s, t', fed + p, used)
  {
    assert (fed + p)[used..] == fed[used..] + p;
    MoreFed(s, t, t', fed, used, p);
  }

  /** All that was fed over a run. */
  function FedOver(es: seq<Event>): Data {
    if |es| == 0 then []
    else FedOver(es[..|es| - 1]) + if es[|es| - 1].FeedEv? then es[|es| - 1].p else []
  }

  /** All that was read over a run. */
  function ReadOver(c: Crypto, t: Tls, es: seq<Event>): Data {
    if |es| == 0 then []
    else
      var before := es[..|es| - 1];
      ReadOver(c, t, before) + if es[|es| - 1].ReadEv? then Read(RunOn(c, t, before), es[|es| - 1].n).1 else []
  }

  // Writing, closing and draining take nothing in.
  lemma {:induction false} QuietStep(c: Crypto, t: Tls, e: Event)
    requires e.WriteEv? || e.CloseEv? || e.SentEv?
    ensures var t' := StepOn(c, t, e); Inflow(t') == Inflow(t) && t'.rec == t.rec && (Active(t') ==> Active(t))
  {
    hide PutRecord, Fail;
    match e {
      case WriteEv(p) =>
        PutInflow(c, t, CT_APP, p);
        PutFrame(c, t, CT_APP, p);
        var t1 := PutRecord(c, t, CT_APP, p).0;
        FailInflow(c, t1, ETooBig, AL_RECORD_OVERFLOW);
        FailEnds(c, t1, ETooBig, AL_RECORD_OVERFLOW);
      case CloseEv =>
        PutInflow(c, t.(sentClose := true), CT_ALERT, [1, AL_CLOSE_NOTIFY]);
        PutFrame(c, t.(sentClose := true), CT_ALERT, [1, AL_CLOSE_NOTIFY]);
      case SentEv(n) =>
    }
  }

  lemma {:induction false} QuietPlaced(s: seq<Arrival>, t: Tls, t': Tls, fed: Data, used: nat)
    requires Placed(s, t, fed, used) && t'.rec == t.rec && (Active(t') ==> Active(t))
    ensures Placed(s, t', fed, used)
  {
  }

  lemma {:induction false} ReadAccounts(c: Crypto, s: seq<Arrival>, t: Tls, n: nat, gone: Data)
    requires Accounts(c, s, t, gone)
    ensures Accounts(c, s, Read(t, n).0, gone + Read(t, n).1)
  {
    var (t', d) := Read(t, n);
    assert d + t'.app == t.app;
    assert gone + d + t'.app == gone + (d + t'.app);
  }

  /**
   Over every run from a fresh engine there are records, one behind the other in the bytes fed,
   that account for everything: the handshake bytes acted on in the clear, those acted on under
   keys, and all application data read or waiting are their contents in order, and every record
   but the clear handshake ones was opened by the AEAD.
   */
  lemma {:induction false} RunAccounts(c: Crypto, ch: Data, alpn: Data, sid: Data, priv: Data, es: seq<Event>)
    returns (s: seq<Arrival>, used: nat)
    requires IvLen(c)
    ensures var t0 := Start(ch, alpn, sid, priv); var t := RunOn(c, t0, es);
      Accounts(c, s, t, ReadOver(c, t0, es)) && Placed(s, t, FedOver(es), used)
    decreases |es|
  {
    hide Accounts, Placed, Feed, Write, Close, Read, EngineOk, Start;
    var t0 := Start(ch, alpn, sid, priv);
    if |es| == 0 {
      s, used := [], 0;
      StartAccounts(c, ch, alpn, sid, priv);
    } else {
      var before, e := es[..|es| - 1], es[|es| - 1];
      s, used := RunAccounts(c, ch, alpn, sid, priv, before);
      var t, gone, fed := RunOn(c, t0, before), ReadOver(c, t0, before), FedOver(before);
      RunOk(c, ch, alpn, sid, priv, before);
      s, used := StepAccounts(c, s, t, e, gone, fed, used) by { EngineRec(c, ch, priv, t); }
    }
  }

  lemma {:induction false} EngineRec(c: Crypto, ch: Data, priv: Data, t: Tls)
    requires EngineOk(c, ch, priv, t)
    ensures RecOk(t)
  {
  }

  lemma {:induction false} StartAccounts(c: Crypto, ch: Data, alpn: Data, sid: Data, priv: Data)
    ensures Accounts(c, [], Start(ch, alpn, sid, priv), []) && Placed([], Start(ch, alpn, sid, priv), [], 0)
  {
    hide Be16;
  }

  lemma {:induction false} StepAccounts(c: Crypto, s: seq<Arrival>, t: Tls, e: Event, gone: Data, fed: Data, used: nat)
    returns (s': seq<Arrival>, used': nat)
    requires Accounts(c, s, t, gone) && Placed(s, t, fed, used) && RecOk(t)
    ensures Accounts(c, s', StepOn(c, t, e), gone + if e.ReadEv? then Read(t, e.n).1 else [])
    ensures Placed(s', StepOn(c, t, e), fed + if e.FeedEv? then e.p else [], used')
  {
    hide Accounts, Placed, Feed, Write, Close;
    s', used' := s, used;
    assert gone + [] == gone && fed + [] == fed;
    if e.FeedEv? {
      s', used' := FeedAccounts(c, s, t, e.p, gone, fed, used);
    } else if e.ReadEv? {
      ReadAccounts(c, s, t, e.n, gone);
      QuietPlaced(s, t, Read(t, e.n).0, fed, used);
    } else {
      QuietStep(c, t, e);
      SameInflow(c, s, t, StepOn(c, t, e), gone);
      QuietPlaced(s, t, StepOn(c, t, e), fed, used);
    }
  }

  /**
   An open run, joined to where its bytes came from: the ServerHello is the content of the clear
   records, the rest of the server's messages of the sealed handshake records, and whatever was
   read or waits to be is the content of the sealed application records.
   */
  lemma {:induction false} OpenAccounts(c: Crypto, ch: Data, alpn: Data, sid: Data, priv: Data, es: seq<Event>, t: Tls)
    returns (s: seq<Arrival>, used: nat)
    requires IvLen(c) && t == RunOn(c, Start(ch, alpn, sid, priv), es) && t.state == Opened
    ensures |t.trace.msgs| >= 5 && (forall i :: 0 <= i < |s| ==> Genuine(c, s[i])) && Placed(s, t, FedOver(es), used)
    ensures InClear(s) == t.trace.msgs[0] && InSealed(s, CT_HS) == Flat(t.trace.msgs[1..]) + t.hsbuf
    ensures InSealed(s, CT_APP) == ReadOver(c, Start(ch, alpn, sid, priv), es) + t.app
  {
    hide RunOn, Start, ReadOver, Genuine, Placed, InClear, InSealed, Flat, Exchanged, Verified, ServerHs;
    OpenRun(c, ch, alpn, sid, priv, es, t);
    s, used := RunAccounts(c, ch, alpn, sid, priv, es);
  }
}
