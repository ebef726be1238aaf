/**
 NSEC denial of existence (src/dnssec/nsec.c), judged against a zone: a finite set of
 names that own records.  Section 5.4 of RFC 4035.
 */
module Nsec {
  import opened Words
  import opened Names

  // ---------------------------------------------------------------------------
  // The next name in the rdata
  // ---------------------------------------------------------------------------

  /** elpis_name_parse_nocomp from offset off, with `out` bytes and `labels` labels already read. */
  function ParseFrom(p: seq<byte>, off: nat, out: nat, labels: nat): (r: Option<(Name, nat)>)
    decreases |p| - off
  {
    if off >= |p| || p[off] > MAX_LABEL then None
    else if p[off] == 0 then (if out + 1 > MAX_NAME then None else Some(([], off + 1)))
    else
      var c := p[off];
      if off + 1 + c > |p| || out + 1 + c + 1 > MAX_NAME || labels + 1 > MAX_LABELS then None
      else
        match ParseFrom(p, off + 1 + c, out + 1 + c, labels + 1)
        case None => None
        case Some((n, e)) => Some(([p[off + 1..off + 1 + c]] + n, e))
  }

  function ParseNoComp(p: seq<byte>): Option<(Name, nat)> {
    ParseFrom(p, 0, 0, 0)
  }

  lemma {:induction false} WireNone()
    ensures Wire([]) == [0]
  {
  }

  lemma {:induction false} WireCons(l: Label, n: Name)
    requires LabelOk(l) && forall i :: 0 <= i < |n| ==> LabelOk(n[i])
    ensures (forall i :: 0 <= i < |[l] + n| ==> LabelOk(([l] + n)[i])) && Wire([l] + n) == [|l|] + l + Wire(n)
  {
    assert ([l] + n)[1..] == n;
  }

  lemma {:induction false} ParseFromSound(p: seq<byte>, off: nat, out: nat, labels: nat)
    requires ParseFrom(p, off, out, labels).Some?
    ensures var (n, e) := ParseFrom(p, off, out, labels).value;
            && (forall i :: 0 <= i < |n| ==> LabelOk(n[i])) && out + WireLen(n) <= MAX_NAME
            && off < e <= |p| && p[off..e] == Wire(n)
    decreases |p| - off
  {
    hide WireLen, Wire;
    var (n, e) := ParseFrom(p, off, out, labels).value;
    WireLenStep(n);
    if p[off] == 0 {
      assert p[off..e] == [0];
      WireNone();
    } else {
      var c := p[off];
      ParseFromSound(p, off + 1 + c, out + 1 + c, labels + 1);
      var (m, e') := ParseFrom(p, off + 1 + c, out + 1 + c, labels + 1).value;
      WireCons(p[off + 1..off + 1 + c], m);
      assert n[1..] == m;
      assert p[off..e] == [p[off]] + p[off + 1..off + 1 + c] + p[off + 1 + c..e];
    }
  }

  lemma {:induction false} ParseFromComplete(p: seq<byte>, off: nat, out: nat, labels: nat, n: Name)
    requires forall i :: 0 <= i < |n| ==> LabelOk(n[i])
    requires out + WireLen(n) <= MAX_NAME && labels + |n| <= MAX_LABELS
    requires off + WireLen(n) <= |p| && p[off..off + WireLen(n)] == Wire(n)
    ensures ParseFrom(p, off, out, labels) == Some((n, off + WireLen(n)))
    decreases |n|
  {
    hide Wire, WireLen;
    var len := WireLen(n);
    var w := p[off..off + len];
    WireFirst(n);
    assert p[off] == w[0];
    if |n| == 0 {
      WireLenStep(n);
    } else {
      var c := |n[0]|;
      WireHead(n);
      WireLenStep(n);
      SliceSlice(p, off, off + len, 1, 1 + c);
      SliceSlice(p, off, off + len, 1 + c, len);
      ParseFromComplete(p, off + 1 + c, out + 1 + c, labels + 1, n[1..]);
      assert [n[0]] + n[1..] == n;
    }
  }

  lemma {:induction false} WireLenStep(n: Name)
    ensures WireLen(n) >= 1
    ensures WireLen(n) == if |n| == 0 then 1 else 1 + |n[0]| + WireLen(n[1..])
  {
  }

  /** The parser reads a name exactly when the bytes start with the wire form of a valid one. */
  lemma {:induction false} ParseNoCompIff(p: seq<byte>, n: Name, e: nat)
    requires NameOk(n)
    ensures ParseNoComp(p) == Some((n, e)) <==> Wire(n) <= p && e == WireLen(n)
  {
    hide ParseFrom, Wire;
    if Wire(n) <= p {
      LabelCount(n);
      assert p[0..WireLen(n)] == Wire(n);
      ParseFromComplete(p, 0, 0, 0, n);
    }
    if ParseNoComp(p) == Some((n, e)) {
      ParseFromSound(p, 0, 0, 0);
      assert p[0..e] == p[..e];
    }
  }

  /** The labels read so far, put before what is still to be read. */
  ghost function Joined(n: Name, r: Option<(Name, nat)>): Option<(Name, nat)> {
    match r
    case None => None
    case Some((m, e)) => Some((n + m, e))
  }

  lemma {:induction false} JoinedStep(n: Name, l: Label, r: Option<(Name, nat)>)
    ensures Joined(n, match r case None => None case Some((m, e)) => Some(([l] + m, e))) == Joined(n + [l], r)
    ensures Joined([], r) == r
  {
    if r.Some? {
      assert n + ([l] + r.value.0) == n + [l] + r.value.0;
      assert [] + r.value.0 == r.value.0;
    }
  }

  /** The parsing loop, which collects labels as it goes. */
  method ParseLoop(p: seq<byte>) returns (r: Option<(Name, nat)>)
    ensures r == ParseNoComp(p)
  {
    var off, out, n := 0, 0, [];
    JoinedStep([], [], ParseNoComp(p));
    while true
      invariant 0 <= off <= |p| && 0 <= out && |n| <= MAX_LABELS
      invariant ParseNoComp(p) == Joined(n, ParseFrom(p, off, out, |n|))
      decreases |p| - off
    {
      if off >= |p| {
        return None;
      }
      var c := p[off];
      if c > MAX_LABEL {
        return None;
      }
      if c == 0 {
        if out + 1 > MAX_NAME {
          return None;
        }
        assert n + [] == n;
        return Some((n, off + 1));
      }
      if off + 1 + c > |p| || out + 1 + c + 1 > MAX_NAME || |n| + 1 > MAX_LABELS {
        return None;
      }
      var l := p[off + 1..off + 1 + c];
      JoinedStep(n, l, ParseFrom(p, off + 1 + c, out + 1 + c, |n| + 1));
      n := n + [l];
      off := off + 1 + c;
      out := out + 1 + c;
    }
  }

  // ---------------------------------------------------------------------------
  // The proof procedure
  // ---------------------------------------------------------------------------

  /** An NSEC record: owner name and rdata, which is the next name and a type bitmap. */
  datatype Rr = Rr(owner: Name, rd: seq<byte>)

  function Next(r: Rr): Option<Name> {
    match ParseNoComp(r.rd)
    case None => None
    case Some((n, _)) => Some(n)
  }

  /** elpis_nsec_covers. */
  predicate Covers(r: Rr, name: Name) {
    match Next(r)
    case None => false
    case Some(next) =>
      if CanonCmp(r.owner, next) < 0 then CanonCmp(r.owner, name) < 0 && CanonCmp(name, next) < 0
      else CanonCmp(r.owner, name) < 0 || CanonCmp(name, next) < 0
  }

  /** elpis_nsec_covers as it works: on wire forms, after reading the next name from the rdata. */
  method CoversOnWire(r: Rr, name: Name) returns (covers: bool)
    requires NameOk(r.owner) && NameOk(name)
    ensures covers == Covers(r, name)
  {
    hide ParseFrom, Wire, Canon, NameCmp, CanonCmp;
    var next := ParseLoop(r.rd);
    if next.None? {
      return false;
    }
    var n := next.value.0;
    ParseFromSound(r.rd, 0, 0, 0);
    var o, x, w := Wire(r.owner), Wire(name), Wire(n);
    var cOwner := CanonCmpWire(o, x, r.owner, name);
    var cNext := CanonCmpWire(x, w, name, n);
    var span := CanonCmpWire(o, w, r.owner, n);
    if span < 0 {
      return cOwner < 0 && cNext < 0;
    }
    return cOwner < 0 || cNext < 0;
  }

  predicate Matches(r: Rr, name: Name) {
    Canon(r.owner) == Canon(name)
  }

  predicate AnyMatch(rrs: seq<Rr>, name: Name) {
    exists i :: 0 <= i < |rrs| && Matches(rrs[i], name)
  }

  predicate AnyCover(rrs: seq<Rr>, name: Name) {
    exists i :: 0 <= i < |rrs| && Covers(rrs[i], name)
  }

  /** Labels of qname shared with the owner or the next name of one record. */
  function Shared(r: Rr, q: Name): (k: nat)
    ensures k <= |q|
  {
    var a := Common(Canon(r.owner), Canon(q));
    match Next(r)
    case None => a
    case Some(next) => var b := Common(Canon(next), Canon(q)); if b > a then b else a
  }

  /** The most labels shared with any record. */
  function CeLabels(rrs: seq<Rr>, q: Name): (k: nat)
    ensures k <= |q|
  {
    if |rrs| == 0 then 0
    else
      var k, s := CeLabels(rrs[..|rrs| - 1], q), Shared(rrs[|rrs| - 1], q);
      if s > k then s else k
  }

  lemma {:induction false} CeLabelsIsMax(rrs: seq<Rr>, q: Name)
    ensures forall i :: 0 <= i < |rrs| ==> Shared(rrs[i], q) <= CeLabels(rrs, q)
    ensures CeLabels(rrs, q) > 0 ==> exists i :: 0 <= i < |rrs| && Shared(rrs[i], q) == CeLabels(rrs, q)
  {
    hide Shared;
    if |rrs| > 0 {
      var n := |rrs| - 1;
      var init := rrs[..n];
      CeLabelsIsMax(init, q);
      forall i | 0 <= i < |rrs|
        ensures Shared(rrs[i], q) <= CeLabels(rrs, q)
      {
        if i < n {
          assert init[i] == rrs[i];
        }
      }
      if CeLabels(rrs, q) > 0 {
        if Shared(rrs[n], q) != CeLabels(rrs, q) {
          var i :| 0 <= i < n && Shared(init[i], q) == CeLabels(init, q);
          assert Shared(rrs[i], q) == CeLabels(rrs, q);
        }
      }
    }
  }

  /** closest_encloser_labels. */
  method ClosestEncloserLabels(rrs: seq<Rr>, q: Name) returns (best: nat)
    ensures best == CeLabels(rrs, q)
  {
    best := 0;
    var i := 0;
    while i < |rrs|
      invariant 0 <= i <= |rrs| && best == CeLabels(rrs[..i], q)
    {
      assert rrs[..i + 1][..i] == rrs[..i];
      var a := CommonLabels(rrs[i].owner, q);
      if a > best {
        best := a;
      }
      var next := ParseLoop(rrs[i].rd);
      if next.Some? {
        var b := CommonLabels(next.value.0, q);
        if b > best {
          best := b;
        }
      }
      i := i + 1;
    }
    assert rrs[..i] == rrs;
  }

  /** The wildcard at the closest encloser. */
  function Wildcard(rrs: seq<Rr>, q: Name): Name {
    [STAR] + Keep(q, CeLabels(rrs, q))
  }

  /** What a positive answer rests on. */
  predicate NxProof(rrs: seq<Rr>, q: Name) {
    && !AnyMatch(rrs, q) && AnyCover(rrs, q)
    && WireLen(Wildcard(rrs, q)) <= MAX_NAME && |Wildcard(rrs, q)| <= MAX_LABELS
    && !AnyMatch(rrs, Wildcard(rrs, q)) && AnyCover(rrs, Wildcard(rrs, q))
  }

  /** elpis_nsec_proves_nxdomain. */
  method ProvesNxdomain(rrs: seq<Rr>, q: Name) returns (proven: bool)
    ensures proven <==> NxProof(rrs, q)
  {
    hide Covers, Matches, CeLabels, WireLen, Keep;
    if |rrs| == 0 {
      return false;
    }
    var covered := false;
    var i := 0;
    while i < |rrs|
      invariant 0 <= i <= |rrs|
      invariant forall j :: 0 <= j < i ==> !Matches(rrs[j], q)
      invariant covered <==> exists j :: 0 <= j < i && Covers(rrs[j], q)
    {
      if Matches(rrs[i], q) {
        return false;
      }
      if Covers(rrs[i], q) {
        covered := true;
      }
      i := i + 1;
    }
    if !covered {
      return false;
    }
    var k := ClosestEncloserLabels(rrs, q);
    var ce := Keep(q, k);
    if 2 + WireLen(ce) > MAX_NAME || |ce| + 1 > MAX_LABELS {
      WildcardLen(ce);
      return false;
    }
    WildcardLen(ce);
    var wc := [STAR] + ce;
    var denied := false;
    i := 0;
    while i < |rrs|
      invariant 0 <= i <= |rrs|
      invariant forall j :: 0 <= j < i ==> !Matches(rrs[j], wc)
      invariant denied <==> exists j :: 0 <= j < i && Covers(rrs[j], wc)
    {
      if Matches(rrs[i], wc) {
        return false;
      }
      if Covers(rrs[i], wc) {
        denied := true;
      }
      i := i + 1;
    }
    return denied;
  }

  lemma {:induction false} WildcardLen(ce: Name)
    ensures WireLen([STAR] + ce) == 2 + WireLen(ce) && |[STAR] + ce| == |ce| + 1
  {
    assert ([STAR] + ce)[1..] == ce;
  }

  // ---------------------------------------------------------------------------
  // Zones and true records
  // ---------------------------------------------------------------------------

  predicate Lt(a: Name, b: Name) {
    NameCmp(a, b) < 0
  }

  /** r is the zone's own NSEC: owner and next are in the zone, with nothing of it between them. */
  ghost predicate TrueNsec(zone: set<Name>, r: Rr) {
    && Next(r).Some? && Canon(r.owner) in zone && Canon(Next(r).value) in zone
    && (if Lt(Canon(r.owner), Canon(Next(r).value))
        then forall z :: z in zone ==> !(Lt(Canon(r.owner), z) && Lt(z, Canon(Next(r).value)))
        else forall z :: z in zone ==> !Lt(Canon(r.owner), z) && !Lt(z, Canon(Next(r).value)))
  }

  ghost predicate TrueNsecs(zone: set<Name>, rrs: seq<Rr>) {
    forall i :: 0 <= i < |rrs| ==> TrueNsec(zone, rrs[i])
  }

  /** A name the zone has, owning records or merely on the way to one that does. */
  ghost predicate Exists(zone: set<Name>, n: Name) {
    exists z :: z in zone && Under(z, n)
  }

  /** The deepest suffix of q that exists in the zone has k labels. */
  ghost predicate DeepestExisting(zone: set<Name>, q: Name, k: nat) {
    && k <= |q| && Exists(zone, Keep(q, k))
    && forall j :: k < j <= |q| ==> !Exists(zone, Keep(q, j))
  }

  // What a true NSEC covers is not in the zone.
  lemma {:induction false} CoveredIsAbsent(zone: set<Name>, r: Rr, name: Name)
    requires TrueNsec(zone, r) && Covers(r, name)
    ensures Canon(name) !in zone
  {
  }

  // One of the two ends of a covering NSEC shares as many labels with q as any name of the zone.
  lemma {:induction false} NeighbourShares(zone: set<Name>, r: Rr, q: Name, z: Name, s: Name)
    requires TrueNsec(zone, r) && Covers(r, q) && z in zone && Under(z, s) && Under(Canon(q), s)
    ensures Under(Canon(r.owner), s) || Under(Canon(Next(r).value), s)
  {
    hide Canon, NameCmp, Under;
    var o, n, c := Canon(r.owner), Canon(Next(r).value), Canon(q);
    NameCmpTotal(z, o);
    NameCmpTotal(z, n);
    NameCmpTotal(o, n);
    NameCmpTotal(c, n);
    NameCmpTotal(o, c);
    if NameCmp(z, o) <= 0 && NameCmp(o, c) < 0 {
      SuffixConvex(z, o, c, s);
    } else if NameCmp(n, z) <= 0 && NameCmp(c, n) < 0 {
      SuffixConvex(c, n, z, s);
    } else {
      NameCmpTrans(z, o, n);
      NameCmpTrans(n, z, o);
    }
  }

  // ---------------------------------------------------------------------------
  // Soundness
  // ---------------------------------------------------------------------------

  lemma {:induction false} UnderIffCommon(a: Name, b: Name, k: nat)
    requires k <= |b|
    ensures Under(b, Keep(b, k))
    ensures Under(a, Keep(b, k)) <==> k <= Common(a, b)
  {
    hide Common;
    if k <= |a| {
      CommonIsLongest(a, b, k);
    }
  }

  // Does one of a record's two names lie at or below the last k labels of q?
  lemma {:induction false} SharedIff(r: Rr, q: Name, k: nat)
    requires k <= |q|
    ensures k <= Shared(r, q) <==>
            || Under(Canon(r.owner), Keep(Canon(q), k))
            || (Next(r).Some? && Under(Canon(Next(r).value), Keep(Canon(q), k)))
  {
    hide Common, Next, Under, Canon;
    UnderIffCommon(Canon(r.owner), Canon(q), k);
    if Next(r).Some? {
      UnderIffCommon(Canon(Next(r).value), Canon(q), k);
    }
  }

  /** The closest encloser the code computes is the deepest ancestor of q that exists in the zone. */
  lemma {:induction false} CeIsDeepest(zone: set<Name>, rrs: seq<Rr>, q: Name)
    requires TrueNsecs(zone, rrs) && AnyCover(rrs, q)
    ensures DeepestExisting(zone, Canon(q), CeLabels(rrs, q))
  {
    hide Canon, Under, Shared, CeLabels, Covers, TrueNsec, Keep;
    var k, c := CeLabels(rrs, q), Canon(q);
    var i :| 0 <= i < |rrs| && Covers(rrs[i], q);
    CeLabelsIsMax(rrs, q);
    assert Exists(zone, Keep(c, k)) by {
      CeExists(zone, rrs, q, i);
    }
    forall j | k < j <= |c|
      ensures !Exists(zone, Keep(c, j))
    {
      forall z | z in zone
        ensures !Under(z, Keep(c, j))
      {
        if Under(z, Keep(c, j)) {
          UnderIffCommon(c, c, j);
          CommonSelf(c);
          TrueHasNext(zone, rrs[i]);
          NeighbourShares(zone, rrs[i], q, z, Keep(c, j));
          SharedIff(rrs[i], q, j);
        }
      }
    }
  }

  lemma {:induction false} TrueHasNext(zone: set<Name>, r: Rr)
    requires TrueNsec(zone, r)
    ensures Next(r).Some? && Canon(r.owner) in zone && Canon(Next(r).value) in zone
  {
  }

  lemma {:induction false} CommonSelf(c: Name)
    ensures Common(c, c) == |c|
  {
    if |c| > 0 {
      CommonSelf(c[..|c| - 1]);
    }
  }

  lemma {:induction false} CeExists(zone: set<Name>, rrs: seq<Rr>, q: Name, i: nat)
    requires TrueNsecs(zone, rrs) && i < |rrs|
    ensures Exists(zone, Keep(Canon(q), CeLabels(rrs, q)))
  {
    hide Canon, Under, Shared, CeLabels, TrueNsec, Keep;
    CeLabelsIsMax(rrs, q);
    var j := i;
    if CeLabels(rrs, q) > 0 {
      j :| 0 <= j < |rrs| && Shared(rrs[j], q) == CeLabels(rrs, q);
    }
    SharedIff(rrs[j], q, CeLabels(rrs, q));
    TrueHasNext(zone, rrs[j]);
  }

  /**
   A positive answer is right about the name and about the wildcard: neither owns records,
   and the encloser the wildcard hangs from is the deepest existing one.
   */
  lemma {:induction false} NxdomainSound(zone: set<Name>, rrs: seq<Rr>, q: Name)
    requires TrueNsecs(zone, rrs) && NxProof(rrs, q)
    ensures Canon(q) !in zone
    ensures DeepestExisting(zone, Canon(q), CeLabels(rrs, q))
    ensures Canon(Wildcard(rrs, q)) !in zone
  {
    hide Canon, Covers, TrueNsec, CeLabels, DeepestExisting, Wildcard;
    var i :| 0 <= i < |rrs| && Covers(rrs[i], q);
    CoveredIsAbsent(zone, rrs[i], q);
    CeIsDeepest(zone, rrs, q);
    var j :| 0 <= j < |rrs| && Covers(rrs[j], Wildcard(rrs, q));
    CoveredIsAbsent(zone, rrs[j], Wildcard(rrs, q));
  }

  /**
   When is a positive answer a true NXDOMAIN?  The name is absent from the zone altogether,
   not even an empty non-terminal, exactly when no record of the proof has its owner or its
   next name at or below it; the code does not look at that.
   */
  lemma {:induction false} NxdomainExactly(zone: set<Name>, rrs: seq<Rr>, q: Name)
    requires TrueNsecs(zone, rrs) && NxProof(rrs, q)
    ensures !Exists(zone, Canon(q)) <==>
            forall i :: 0 <= i < |rrs| ==>
              !Under(Canon(rrs[i].owner), Canon(q)) &&
                  !(Next(rrs[i]).Some? && Under(Canon(Next(rrs[i]).value), Canon(q)))
  {
    hide Canon, Under, Shared, CeLabels, Covers, TrueNsec, Next, Keep;
    var c := Canon(q);
    CeIsDeepest(zone, rrs, q);
    CeLabelsIsMax(rrs, q);
    KeepAll(c);
    forall i | 0 <= i < |rrs|
      ensures Shared(rrs[i], q) == |q|
        <==> Under(Canon(rrs[i].owner), c) || (Next(rrs[i]).Some? && Under(Canon(Next(rrs[i]).value), c))
    {
      SharedIff(rrs[i], q, |q|);
    }
    if |q| == 0 {
      var i :| 0 <= i < |rrs| && Covers(rrs[i], q);
      assert Shared(rrs[i], q) == |q|;
    }
  }

  // Labels of the example zones.
  const A: Label := [97]
  const B: Label := [98]
  const X: Label := [120]

  /**
   A zone with records at x and a.b.x: the NSEC at x "proves" that b.x does not exist, though
   b.x is the empty non-terminal above a.b.x and the right answer is NODATA.
   */
  lemma {:induction false} EmptyNonTerminalDenied()
    ensures var zone, rrs, q := {[X], [A, B, X]}, [Rr([X], Wire([A, B, X]))], [B, X];
            TrueNsecs(zone, rrs) && NxProof(rrs, q) && Exists(zone, Canon(q))
  {
    hide *;
    var apex: Name, deep: Name, q: Name, wc: Name := [X], [A, B, X], [B, X], [STAR, B, X];
    SmallNames();
    var r := Rr(apex, Wire(deep));
    NextIs(r, deep);
    OneNsecProves(r, deep, q, 2, wc) by {
      SmallOrder();
      SmallCommon();
      KeepIs([STAR], q, 2, wc);
    }
    OneNsecTrue({apex, deep}, r, apex, deep) by {
      SmallOrder();
    }
    ExistsAbove({apex, deep}, deep, q, 1);
  }

  lemma {:induction false} KeepIs(l: Name, q: Name, k: nat, n: Name)
    requires k <= |q| && n == l + q[|q| - k..]
    ensures n == l + Keep(q, k)
  {
  }

  lemma {:induction false} ExistsAbove(zone: set<Name>, z: Name, n: Name, i: nat)
    requires z in zone && i <= |z| && z[i..] == n
    ensures Exists(zone, n) && Under(z, n)
  {
    assert Under(z, n);
  }

  // One NSEC that covers a name and the wildcard at what it shares with it is a proof.
  lemma {:induction false} OneNsecProves(r: Rr, next: Name, q: Name, k: nat, wc: Name)
    requires Next(r) == Some(next) && NameOk(wc) && wc == [STAR] + Keep(q, k)
    requires k == (if Common(Canon(next), Canon(q)) > Common(Canon(r.owner), Canon(q))
                   then Common(Canon(next), Canon(q)) else Common(Canon(r.owner), Canon(q)))
    requires Canon(r.owner) != Canon(q) && Canon(r.owner) != Canon(wc)
    requires Lt(Canon(r.owner), Canon(q)) && Lt(Canon(r.owner), Canon(wc))
    requires Lt(Canon(r.owner), Canon(next)) ==> Lt(Canon(q), Canon(next)) && Lt(Canon(wc), Canon(next))
    ensures NxProof([r], q)
  {
    hide Next, NameCmp, Canon, Common, Keep, WireLen;
    LabelCount(wc);
    CeLabelsIsMax([r], q);
    assert [r][0] == r && Shared(r, q) == k;
    assert CeLabels([r], q) == k;
    assert Covers(r, q) && Covers(r, wc);
  }

  lemma {:induction false} OneNsecTrue(zone: set<Name>, r: Rr, a: Name, b: Name)
    requires zone == {a, b} && Canon(r.owner) in zone && Next(r).Some? && Canon(Next(r).value) in zone
    requires !Lt(a, a) && !Lt(b, b) && Canon(r.owner) == a && Canon(Next(r).value) == b
    ensures TrueNsecs(zone, [r])
  {
    hide Next, NameCmp, Canon;
    NameCmpTotal(a, b);
  }

  lemma {:induction false} NextIs(r: Rr, n: Name)
    requires NameOk(n) && r.rd == Wire(n)
    ensures Next(r) == Some(n)
  {
    hide ParseFrom, Wire;
    ParseNoCompIff(r.rd, n, WireLen(n));
  }

  // The four names of the examples are valid and already folded.
  lemma {:induction false} SmallNames()
    ensures NameOk([X]) && NameOk([B, X]) && NameOk([A, B, X]) && NameOk([STAR, B, X]) && NameOk([STAR, X])
    ensures Canon([X]) == [X] && Canon([B, X]) == [B, X] && Canon([A, B, X]) == [A, B, X]
    ensures Canon([STAR, B, X]) == [STAR, B, X] && Canon([STAR, X]) == [STAR, X]
  {
    assert Fold(X) == X && Fold(A) == A && Fold(B) == B && Fold(STAR) == STAR;
    assert [A, B, X][1..] == [B, X] && [B, X][1..] == [X] && [STAR, B, X][1..] == [B, X] && [STAR, X][1..] == [X] &&
        [X][1..] == [];
    assert WireLen([]) == 1;
    assert WireLen([X]) == 3;
    assert WireLen([B, X]) == 5;
  }

  lemma {:induction false} SmallOrder()
    ensures Lt([X], [B, X]) && Lt([B, X], [A, B, X]) && Lt([X], [STAR, B, X]) && Lt([STAR, B, X], [A, B, X])
    ensures Lt([X], [A, B, X]) && Lt([B, X], [STAR, B, X])
    ensures !Lt([X], [X]) && !Lt([B, X], [B, X]) && !Lt([A, B, X], [A, B, X]) && !Lt([B, X], [X]) && !Lt([A, B, X], [X])
  {
    AncestorFirst([B, X], [X]);
    AncestorFirst([A, B, X], [B, X]);
    AncestorFirst([STAR, B, X], [X]);
    AncestorFirst([STAR, B, X], [B, X]);
    AncestorFirst([A, B, X], [X]);
    NameCmpTotal([X], [B, X]);
    NameCmpTotal([X], [A, B, X]);
    NameCmpTotal([X], [X]);
    NameCmpTotal([B, X], [B, X]);
    NameCmpTotal([A, B, X], [A, B, X]);
    assert [STAR, B, X][..2] == [STAR, B] && [A, B, X][..2] == [A, B];
    assert [STAR, B][..1] == [STAR] && [A, B][..1] == [A];
    LabelCmpTotal(X, X);
    LabelCmpTotal(B, B);
    assert LabelCmp(STAR, A) == -1;
    assert NameCmp([STAR], [A]) == -1;
    assert NameCmp([STAR, B], [A, B]) == -1;
  }

  lemma {:induction false} SmallCommon()
    ensures Common([X], [B, X]) == 1 && Common([A, B, X], [B, X]) == 2
    ensures Common([B, X], [A, B, X]) == 2 && Common([X], [A, B, X]) == 1
  {
    assert [X][..0] == [] && [B, X][..1] == [B] && [A, B, X][..2] == [A, B];
    assert [A, B][..1] == [A] && [B][..0] == [];
  }

  // ---------------------------------------------------------------------------
  // Delegations
  // ---------------------------------------------------------------------------

  /** A cut lies strictly above n. */
  ghost predicate BelowCut(cuts: set<Name>, n: Name) {
    exists d :: d in cuts && Under(n, d) && |d| < |n|
  }

  /** The zone is cut at names of its own and holds nothing below a cut; that is the children's. */
  ghost predicate Delegates(zone: set<Name>, cuts: set<Name>) {
    cuts <= zone && forall z :: z in zone ==> !BelowCut(cuts, z)
  }

  /** Names that children of the zone may have. */
  ghost predicate Children(cuts: set<Name>, child: set<Name>) {
    forall n :: n in child ==> BelowCut(cuts, n)
  }

  // Below a cut, the only NSEC of the parent that covers anything is the one at the cut.
  lemma {:induction false} CutCovers(zone: set<Name>, cuts: set<Name>, r: Rr, q: Name, d: Name)
    requires TrueNsec(zone, r) && Covers(r, q) && Delegates(zone, cuts)
    requires d in cuts && Under(Canon(q), d) && |d| < |q|
    ensures Canon(r.owner) == d
  {
    hide Canon, NameCmp, Under, Next;
    var o, n, c := Canon(r.owner), Canon(Next(r).value), Canon(q);
    AncestorFirst(c, d);
    NameCmpTotal(o, d);
    NameCmpTotal(d, n);
    NameCmpTotal(c, n);
    NameCmpTotal(o, c);
    NameCmpTotal(d, c);
    if NameCmp(c, n) < 0 {
      NameCmpTrans(d, c, n);
      if d == n {
        assert NameCmp(c, d) > 0;
      }
    }
    assert NameCmp(d, o) <= 0 && NameCmp(o, c) < 0;
    UnderSelf(d);
    SuffixConvex(d, o, c, d);
    assert !BelowCut(cuts, o);
    if o != d {
      UnderLength(o, d);
    }
  }

  /** The record is owned by a cut strictly above q. */
  ghost predicate AtCutAbove(cuts: set<Name>, r: Rr, q: Name) {
    Canon(r.owner) in cuts && Under(Canon(q), Canon(r.owner)) && |r.owner| < |q|
  }

  /**
   Does a positive answer hold for the children too?  It says that no name of the parent is q;
   it says so of every possible child exactly when no record that covers q is owned by a cut
   strictly above q.  The code does not look at that (section 4.1 of RFC 6840).
   */
  lemma {:induction false} AbsentBelowCutsIff(zone: set<Name>, cuts: set<Name>, rrs: seq<Rr>, q: Name)
    requires TrueNsecs(zone, rrs) && Delegates(zone, cuts) && NxProof(rrs, q)
    ensures (forall child :: Children(cuts, child) ==> Canon(q) !in zone + child) <==>
            forall i :: 0 <= i < |rrs| && Covers(rrs[i], q) ==> !AtCutAbove(cuts, rrs[i], q)
  {
    hide Canon, Covers, TrueNsec, CeLabels, Wildcard, Under, DeepestExisting;
    NxdomainSound(zone, rrs, q);
    var c := Canon(q);
    forall i | 0 <= i < |rrs| && Covers(rrs[i], q) && AtCutAbove(cuts, rrs[i], q)
      ensures !(forall child :: Children(cuts, child) ==> c !in zone + child)
    {
      assert BelowCut(cuts, c);
      assert Children(cuts, {c});
    }
    forall child | Children(cuts, child) && c in zone + child
      ensures exists i :: 0 <= i < |rrs| && Covers(rrs[i], q) && AtCutAbove(cuts, rrs[i], q)
    {
      var d :| d in cuts && Under(c, d) && |d| < |c|;
      var i :| 0 <= i < |rrs| && Covers(rrs[i], q);
      CutCovers(zone, cuts, rrs[i], q, d);
    }
  }

  /**
   A zone x that delegates b.x: the NSEC at the cut "proves" that a.b.x does not exist, which
   is the child's to say.
   */
  lemma {:induction false} ChildDenied()
    ensures var zone, cuts, rrs, q := {[X], [B, X]}, {[B, X]}, [Rr([B, X], Wire([X]))], [A, B, X];
            TrueNsecs(zone, rrs) && Delegates(zone, cuts) && NxProof(rrs, q) && Children(cuts, {Canon(q)})
  {
    hide *;
    var apex: Name, cut: Name, q: Name, wc: Name := [X], [B, X], [A, B, X], [STAR, B, X];
    SmallNames();
    var r := Rr(cut, Wire(apex));
    NextIs(r, apex);
    OneNsecProves(r, apex, q, 2, wc) by {
      SmallOrder();
      SmallCommon();
      KeepIs([STAR], q, 2, wc);
    }
    OneNsecTrue({cut, apex}, r, cut, apex) by {
      SmallOrder();
    }
    assert {cut, apex} == {apex, cut};
    OneCut({apex, cut}, apex, cut, q);
  }

  lemma {:induction false} OneCut(zone: set<Name>, apex: Name, cut: Name, q: Name)
    requires zone == {apex, cut} && |apex| < |cut| < |q| && q[|q| - |cut|..] == cut
    ensures Delegates(zone, {cut}) && Children({cut}, {q})
  {
  }

  // ---------------------------------------------------------------------------
  // Completeness
  // ---------------------------------------------------------------------------

  /** A zone: its apex owns records, and everything else lies below the apex. */
  ghost predicate IsZone(zone: set<Name>, apex: Name) {
    apex in zone && forall z :: z in zone ==> Under(z, apex)
  }

  /** Every name of the zone has its NSEC among the records. */
  ghost predicate WholeChain(zone: set<Name>, rrs: seq<Rr>) {
    TrueNsecs(zone, rrs) && forall z :: z in zone ==> exists i :: 0 <= i < |rrs| && Canon(rrs[i].owner) == z
  }

  /** q is below the apex, does not exist in any form, and no wildcard could have answered it. */
  ghost predicate Deniable(zone: set<Name>, apex: Name, q: Name) {
    && Under(Canon(q), apex) && !Exists(zone, Canon(q))
    && forall k :: DeepestExisting(zone, Canon(q), k) ==> Canon([STAR] + Keep(q, k)) !in zone
  }

  // The last name of the zone before x.
  lemma {:induction false} Predecessor(zone: set<Name>, x: Name, z: Name) returns (m: Name)
    requires z in zone && Lt(z, x)
    ensures m in zone && Lt(m, x) && forall y :: y in zone && Lt(y, x) ==> !Lt(m, y)
    decreases |zone|
  {
    hide NameCmp;
    var rest := zone - {z};
    if exists y :: y in rest && Lt(y, x) {
      var y :| y in rest && Lt(y, x);
      m := Predecessor(rest, x, y);
      NameCmpTotal(m, z);
      if Lt(m, z) {
        forall w | w in zone && Lt(w, x)
          ensures !Lt(z, w)
        {
          NameCmpTotal(z, z);
          NameCmpTotal(m, w);
          if w in rest && Lt(z, w) {
            NameCmpTrans(m, z, w);
          }
        }
        m := z;
      }
    } else {
      m := z;
      NameCmpTotal(z, z);
    }
  }

  // With the whole chain, a name after some name of the zone and not in it is covered.
  lemma {:induction false} ChainCovers(zone: set<Name>, rrs: seq<Rr>, x: Name, z: Name)
    requires WholeChain(zone, rrs) && z in zone && Lt(z, Canon(x)) && Canon(x) !in zone
    ensures AnyCover(rrs, x)
  {
    hide NameCmp, Canon, Next, TrueNsec, Covers;
    var m := Predecessor(zone, Canon(x), z);
    var i :| 0 <= i < |rrs| && Canon(rrs[i].owner) == m;
    PredecessorCovers(zone, rrs[i], x);
  }

  lemma {:induction false} PredecessorCovers(zone: set<Name>, r: Rr, x: Name)
    requires TrueNsec(zone, r) && Lt(Canon(r.owner), Canon(x)) && Canon(x) !in zone
    requires forall y :: y in zone && Lt(y, Canon(x)) ==> !Lt(Canon(r.owner), y)
    ensures Covers(r, x)
  {
    hide NameCmp, Canon, Next;
    var n := Canon(Next(r).value);
    NameCmpTotal(n, Canon(x));
  }

  /**
   With the whole chain of a zone at hand, the code denies every name below the apex that
   does not exist in any form and that no wildcard could have answered.
   */
  lemma {:induction false} NxdomainComplete(zone: set<Name>, apex: Name, rrs: seq<Rr>, q: Name)
    requires IsZone(zone, apex) && WholeChain(zone, rrs) && NameOk(q) && Deniable(zone, apex, q)
    ensures NxProof(rrs, q)
  {
    hide NameCmp, Canon, CeLabels, Covers, Keep, TrueNsec;
    var c := Canon(q);
    assert c !in zone && c != apex by {
      UnderSelf(c);
    }
    AncestorFirst(c, apex) by { UnderLength(c, apex); }
    ChainCovers(zone, rrs, q, apex);
    NotInZone(zone, rrs, q);
    CeIsDeepest(zone, rrs, q);
    var k := CeLabels(rrs, q);
    var wc := Wildcard(rrs, q);
    assert Canon(wc) !in zone;
    NotInZone(zone, rrs, wc);
    assert k < |q| by {
      KeepAll(c);
    }
    assert |apex| <= k by {
      ApexIsEncloser(zone, apex, c, k);
    }
    WildcardBelow(q, k, apex);
    ChainCovers(zone, rrs, wc, apex);
  }

  /**
   The procedure and the zone together: a yes is right, and with the whole chain at hand there
   is a yes for every name that can be denied.
   */
  method Deny(ghost zone: set<Name>, ghost apex: Name, rrs: seq<Rr>, q: Name) returns (proven: bool)
    requires TrueNsecs(zone, rrs)
    ensures proven ==> Canon(q) !in zone && DeepestExisting(zone, Canon(q), CeLabels(rrs, q))
    ensures proven ==> Canon(Wildcard(rrs, q)) !in zone
    ensures IsZone(zone, apex) && WholeChain(zone, rrs) && NameOk(q) && Deniable(zone, apex, q) ==> proven
  {
    hide NxProof, Canon, CeLabels, DeepestExisting, Wildcard, TrueNsecs, IsZone, WholeChain, NameOk, Deniable;
    proven := ProvesNxdomain(rrs, q);
    if proven {
      NxdomainSound(zone, rrs, q);
    } else if IsZone(zone, apex) && WholeChain(zone, rrs) && NameOk(q) && Deniable(zone, apex, q) {
      NxdomainComplete(zone, apex, rrs, q);
    }
  }

  /** The premises of completeness can be met: the zone x, its one NSEC, and the name b.x. */
  lemma {:induction false} DeniableMet()
    ensures var zone, rrs, q := {[X]}, [Rr([X], Wire([X]))], [B, X];
            IsZone(zone, [X]) && WholeChain(zone, rrs) && NameOk(q) && Deniable(zone, [X], q)
  {
    hide *;
    var apex: Name, q: Name := [X], [B, X];
    SmallNames();
    var r := Rr(apex, Wire(apex));
    NextIs(r, apex);
    OneNsecTrue({apex}, r, apex, apex) by {
      SmallOrder();
      assert {apex, apex} == {apex};
    }
    LoneApex(apex, r, q);
  }

  lemma {:induction false} LoneApex(apex: Name, r: Rr, q: Name)
    requires apex == [X] && |q| == 2 && q[1..] == apex && Canon(q) == q && Canon(r.owner) == apex
    requires TrueNsecs({apex}, [r])
    ensures IsZone({apex}, apex) && WholeChain({apex}, [r]) && Deniable({apex}, apex, q)
  {
    hide TrueNsecs, Canon, DeepestExisting, Keep;
    assert Canon([r][0].owner) == apex;
    forall k | DeepestExisting({apex}, q, k)
      ensures Canon([STAR] + Keep(q, k)) !in {apex}
    {
      CanonStar(Keep(q, k));
    }
  }

  lemma {:induction false} UnderSelf(c: Name)
    ensures Under(c, c)
  {
  }

  lemma {:induction false} UnderLength(c: Name, s: Name)
    requires Under(c, s) && c != s
    ensures |s| < |c|
  {
  }

  lemma {:induction false} NotInZone(zone: set<Name>, rrs: seq<Rr>, x: Name)
    requires TrueNsecs(zone, rrs) && Canon(x) !in zone
    ensures !AnyMatch(rrs, x)
  {
    forall i | 0 <= i < |rrs|
      ensures !Matches(rrs[i], x)
    {
      assert TrueNsec(zone, rrs[i]);
    }
  }

  lemma {:induction false} ApexIsEncloser(zone: set<Name>, apex: Name, c: Name, k: nat)
    requires apex in zone && Under(c, apex) && DeepestExisting(zone, c, k)
    ensures |apex| <= k
  {
    assert Keep(c, |apex|) == apex;
    assert Under(apex, Keep(c, |apex|));
    assert Exists(zone, Keep(c, |apex|));
  }

  lemma {:induction false} WildcardBelow(q: Name, k: nat, apex: Name)
    requires NameOk(q) && Under(Canon(q), apex) && |apex| <= k < |q|
    ensures WireLen([STAR] + Keep(q, k)) <= MAX_NAME && |[STAR] + Keep(q, k)| <= MAX_LABELS
    ensures Lt(apex, Canon([STAR] + Keep(q, k)))
  {
    hide WireLen, Canon, LabelOk;
    var ce := Keep(q, k);
    assert ce == q[|q| - k..];
    SuffixOk(q, |q| - k);
    WildcardLen(ce);
    LabelCount(ce);
    WildcardUnder(q, k, apex);
    AncestorFirst(Canon([STAR] + ce), apex);
  }

  lemma {:induction false} WildcardUnder(q: Name, k: nat, apex: Name)
    requires Under(Canon(q), apex) && |apex| <= k < |q|
    ensures Under(Canon([STAR] + Keep(q, k)), apex)
  {
    hide Canon;
    var ce := Keep(q, k);
    var w := Canon([STAR] + ce);
    CanonKeep(q, k);
    CanonTail([STAR] + ce, 1);
    assert ([STAR] + ce)[1..] == ce;
    assert w[1..] == Keep(Canon(q), k);
    assert w[|w| - |apex|..] == Canon(q)[|q| - |apex|..];
  }
}
