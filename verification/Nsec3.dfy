/**
 NSEC3 denial of existence (src/dnssec/nsec3.c), judged against a zone.  The hash is an
 arbitrary function that does not confuse the names in play.  Sections 8.3, 8.4 and 9.2 of
 RFC 5155.
 */
module Nsec3 {
  import opened Words
  import opened Names

  const SHA1_ALG: nat := 1
  const MAX_ITER: nat := 100

  type Hash = seq<byte>

  /** The salted, iterated hash: folded name, salt, iterations. */
  type HashFn = (Name, seq<byte>, nat) -> Hash

  /** One NSEC3 record as n3_parse takes it apart. */
  datatype N3 = N3(alg: nat, optOut: bool, iterations: nat, salt: seq<byte>, owner: Hash, next: Hash)

  /** Records as they arrive; None is one that n3_parse rejects. */
  type Records = seq<Option<N3>>

  // ---------------------------------------------------------------------------
  // Matching and covering
  // ---------------------------------------------------------------------------

  /** h lies strictly between owner and next, going round at the end of the chain. */
  predicate InArc(o: Hash, n: Hash, h: Hash) {
    if LabelCmp(o, n) < 0 then LabelCmp(o, h) < 0 && LabelCmp(h, n) < 0
    else LabelCmp(o, h) < 0 || LabelCmp(h, n) < 0
  }

  predicate SameParams(o: N3, p: N3) {
    o.iterations == p.iterations && o.salt == p.salt
  }

  predicate CoveredBy(r: Option<N3>, p: N3, h: Hash) {
    r.Some? && SameParams(r.value, p) && InArc(r.value.owner, r.value.next, h)
  }

  predicate MatchedBy(r: Option<N3>, p: N3, h: Hash) {
    r.Some? && SameParams(r.value, p) && LabelCmp(r.value.owner, h) == 0
  }

  /** elpis_nsec3_hash, with its refusals. */
  function HashOf(f: HashFn, name: Name, p: N3): Option<Hash> {
    if p.alg != SHA1_ALG || p.iterations > MAX_ITER then None
    else Some(f(Canon(name), p.salt, p.iterations))
  }

  /** pick_params: the first record that parses. */
  method PickParams(rrs: Records) returns (p: Option<N3>)
    ensures p.None? <==> forall i :: 0 <= i < |rrs| ==> rrs[i].None?
    ensures p.Some? ==> exists i :: 0 <= i < |rrs| && rrs[i] == p && forall j :: 0 <= j < i ==> rrs[j].None?
  {
    var i := 0;
    while i < |rrs|
      invariant 0 <= i <= |rrs|
      invariant forall j :: 0 <= j < i ==> rrs[j].None?
    {
      if rrs[i].Some? {
        return rrs[i];
      }
      i := i + 1;
    }
    return None;
  }

  ghost predicate FirstCover(rrs: Records, p: N3, h: Hash, i: nat) {
    i < |rrs| && CoveredBy(rrs[i], p, h) && forall j :: 0 <= j < i ==> !CoveredBy(rrs[j], p, h)
  }

  /** covered_by_any: whether an arc covers the name, and that arc's opt-out flag. */
  method CoveredByAny(f: HashFn, rrs: Records, p: N3, name: Name) returns (covered: bool, optOut: bool, ghost at: nat)
    ensures covered
      <==> HashOf(f, name, p).Some? && exists i :: 0 <= i < |rrs| && CoveredBy(rrs[i], p, HashOf(f, name, p).value)
    ensures covered ==> FirstCover(rrs, p, HashOf(f, name, p).value, at) && optOut == rrs[at].value.optOut
  {
    hide InArc;
    var h := HashOf(f, name, p);
    if h.None? {
      return false, false, 0;
    }
    var i := 0;
    while i < |rrs|
      invariant 0 <= i <= |rrs|
      invariant forall j :: 0 <= j < i ==> !CoveredBy(rrs[j], p, h.value)
    {
      if CoveredBy(rrs[i], p, h.value) {
        return true, rrs[i].value.optOut, i;
      }
      i := i + 1;
    }
    return false, false, 0;
  }

  ghost predicate AnyMatch(f: HashFn, rrs: Records, p: N3, name: Name) {
    HashOf(f, name, p).Some? && exists i :: 0 <= i < |rrs| && MatchedBy(rrs[i], p, HashOf(f, name, p).value)
  }

  /** matched_by_any. */
  method MatchedByAny(f: HashFn, rrs: Records, p: N3, name: Name) returns (matched: bool)
    ensures matched <==> AnyMatch(f, rrs, p, name)
  {
    var h := HashOf(f, name, p);
    if h.None? {
      return false;
    }
    var i := 0;
    while i < |rrs|
      invariant 0 <= i <= |rrs|
      invariant forall j :: 0 <= j < i ==> !MatchedBy(rrs[j], p, h.value)
    {
      if MatchedBy(rrs[i], p, h.value) {
        return true;
      }
      i := i + 1;
    }
    return false;
  }

  /**
   find_closest_encloser: climbs from q to the zone and stops at the first name a record
   matches.  The result is its label count; k is the deepest matched suffix not above the zone.
   */
  method FindClosestEncloser(f: HashFn, rrs: Records, q: Name, zone: Name, p: N3) returns (k: Option<nat>)
    requires NameOk(q) && NameOk(zone)
    ensures k.Some? ==> |zone| <= k.value <= |q| && AnyMatch(f, rrs, p, Keep(q, k.value))
    ensures k.Some? ==> forall j :: k.value < j <= |q| ==> !AnyMatch(f, rrs, p, Keep(q, j))
    ensures k.None? && Under(Canon(q), Canon(zone)) ==>
              forall j :: |zone| <= j <= |q| ==> !AnyMatch(f, rrs, p, Keep(q, j))
  {
    hide AnyMatch, Canon, Keep;
    var cur := q;
    var guard := 0;
    KeepAll(q);
    LabelCount(q);
    while guard < MAX_LABELS
      invariant 0 <= guard <= MAX_LABELS && guard == |q| - |cur| && cur == Keep(q, |cur|) && |cur| <= |q|
      invariant forall j :: |cur| < j <= |q| ==> !AnyMatch(f, rrs, p, Keep(q, j))
      decreases |cur|, MAX_LABELS - guard
    {
      if |cur| < |zone| {
        return None;
      }
      var m := MatchedByAny(f, rrs, p, cur);
      if m {
        return Some(|cur|);
      }
      if |cur| == 0 || Canon(cur) == Canon(zone) {
        SameLength(cur, zone);
        return None;
      }
      KeepStep(q, |cur|);
      cur := cur[1..];
      guard := guard + 1;
    }
    return None;
  }

  lemma {:induction false} SameLength(a: Name, b: Name)
    ensures Canon(a) == Canon(b) ==> |a| == |b|
  {
    assert |Canon(a)| == |a| && |Canon(b)| == |b|;
  }

  datatype Proof = Unproven | Proven | OptOutProof

  /** What the two positive answers rest on: k labels of encloser, and the arc over the next closer name. */
  ghost predicate NxProof(f: HashFn, rrs: Records, q: Name, zone: Name, p: N3, k: nat, at: nat) {
    && Some(p) in rrs && |zone| <= k < |q|
    && AnyMatch(f, rrs, p, Keep(q, k)) && (forall j :: k < j <= |q| ==> !AnyMatch(f, rrs, p, Keep(q, j)))
    && HashOf(f, Keep(q, k + 1), p).Some? && FirstCover(rrs, p, HashOf(f, Keep(q, k + 1), p).value, at)
    && !AnyMatch(f, rrs, p, [STAR] + Keep(q, k))
    && HashOf(f, [STAR] + Keep(q, k), p).Some?
    && exists i :: 0 <= i < |rrs| && CoveredBy(rrs[i], p, HashOf(f, [STAR] + Keep(q, k), p).value)
  }

  /** elpis_nsec3_proves_nxdomain. */
  method ProvesNxdomain(f: HashFn, rrs: Records, q: Name, zone: Name)
    returns (r: Proof, ghost p: N3, ghost k: nat, ghost at: nat)
    requires NameOk(q) && NameOk(zone)
    ensures r != Unproven ==> NxProof(f, rrs, q, zone, p, k, at) && (r == OptOutProof <==> rrs[at].value.optOut)
    ensures r == Unproven ==> NotProven(f, rrs, q, zone)
  {
    hide AnyMatch, HashOf, Keep, CoveredBy;
    p, k, at := N3(0, false, 0, [], [], []), 0, 0;
    var params := PickParams(rrs);
    if |rrs| == 0 || params.None? {
      return Unproven, p, k, at;
    }
    p := params.value;
    if params.value.iterations > MAX_ITER {
      TooManyIterations(f, p);
      return Unproven, p, k, at;
    }
    var ce := FindClosestEncloser(f, rrs, q, zone, params.value);
    if ce.None? {
      return Unproven, p, k, at;
    }
    k := ce.value;
    if ce.value >= |q| {
      KeepAll(q);
      return Unproven, p, k, at;
    }
    var nc := Keep(q, ce.value + 1);
    var covered, optOut, a := CoveredByAny(f, rrs, params.value, nc);
    if !covered {
      return Unproven, p, k, at;
    }
    at := a;
    var enc := Keep(q, ce.value);
    if 2 + WireLen(enc) > MAX_NAME || |enc| + 1 > MAX_LABELS {
      WildcardFits(q, ce.value);
      return Unproven, p, k, at;
    }
    var wc := [STAR] + enc;
    var m := MatchedByAny(f, rrs, params.value, wc);
    if m {
      return Unproven, p, k, at;
    }
    var wcovered, _, b := CoveredByAny(f, rrs, params.value, wc);
    if !wcovered {
      return Unproven, p, k, at;
    }
    return if optOut then OptOutProof else Proven, p, k, at;
  }

  /** Why there was no proof: one of the ingredients is missing under the parameters the code picked. */
  ghost predicate NotProven(f: HashFn, rrs: Records, q: Name, zone: Name) {
    forall p, k, at ::
      (exists i :: 0 <= i < |rrs| && rrs[i] == Some(p) && forall j :: 0 <= j < i ==> rrs[j].None?) ==>
        !(NxProof(f, rrs, q, zone, p, k, at) && Under(Canon(q), Canon(zone)))
  }

  lemma {:induction false} TooManyIterations(f: HashFn, p: N3)
    requires p.iterations > MAX_ITER
    ensures forall n: Name :: HashOf(f, n, p).None?
  {
  }

  // The wildcard at a proper ancestor of a valid name always fits.
  lemma {:induction false} WildcardFits(q: Name, k: nat)
    requires NameOk(q) && k < |q|
    ensures 2 + WireLen(Keep(q, k)) <= MAX_NAME && |Keep(q, k)| + 1 <= MAX_LABELS
  {
    SuffixOk(q, |q| - k);
    LabelCount(q);
  }

  // ---------------------------------------------------------------------------
  // The zone's chain
  // ---------------------------------------------------------------------------

  /** Hash parameters and the opt-out flag of each arc. */
  datatype Chain = Chain(salt: seq<byte>, iterations: nat, optOut: Hash -> bool)

  ghost predicate InChain(f: HashFn, zone: set<Name>, c: Chain, h: Hash) {
    exists z :: z in zone && f(z, c.salt, c.iterations) == h
  }

  /** r is a record of the chain: its ends are hashes of names of the zone, with no other between. */
  ghost predicate TrueN3(f: HashFn, zone: set<Name>, c: Chain, r: N3) {
    && r.alg == SHA1_ALG && r.salt == c.salt && r.iterations == c.iterations && r.optOut == c.optOut(r.owner)
    && InChain(f, zone, c, r.owner) && InChain(f, zone, c, r.next)
    && forall z :: z in zone ==> !InArc(r.owner, r.next, f(z, c.salt, c.iterations))
  }

  ghost predicate TrueRecords(f: HashFn, zone: set<Name>, c: Chain, rrs: Records) {
    forall i :: 0 <= i < |rrs| && rrs[i].Some? ==> TrueN3(f, zone, c, rrs[i].value)
  }

  /** With a name the zone has all its ancestors down from the apex. */
  ghost predicate AncestorClosed(zone: set<Name>, apex: Name) {
    apex in zone && forall z, k :: z in zone && |apex| <= k <= |z| ==> Under(z, apex) && Keep(z, k) in zone
  }

  ghost predicate Tells(f: HashFn, c: Chain, x: Name, y: Name) {
    f(x, c.salt, c.iterations) == f(y, c.salt, c.iterations) ==> x == y
  }

  /** No name of the zone shares its hash with another name probed for q. */
  ghost predicate NoCollision(f: HashFn, zone: set<Name>, c: Chain, q: Name) {
    && (forall z, k :: z in zone && 0 <= k <= |q| ==> Tells(f, c, z, Canon(Keep(q, k))))
    && (forall z, k :: z in zone && 0 <= k <= |q| ==> Tells(f, c, z, Canon([STAR] + Keep(q, k))))
  }

  // A hash inside an arc of the chain belongs to no name of the zone.
  lemma {:induction false} CoveredIsAbsent(f: HashFn, zone: set<Name>, c: Chain, r: N3, x: Name)
    requires TrueN3(f, zone, c, r) && InArc(r.owner, r.next, f(x, c.salt, c.iterations))
    ensures x !in zone
  {
  }

  // A hash that a record matches belongs to a name of the zone.
  lemma {:induction false} MatchedIsPresent(f: HashFn, zone: set<Name>, c: Chain, r: N3, q: Name, k: nat)
    requires TrueN3(f, zone, c, r) && NoCollision(f, zone, c, q) && k <= |q|
    requires LabelCmp(r.owner, f(Canon(Keep(q, k)), c.salt, c.iterations)) == 0
    ensures Canon(Keep(q, k)) in zone
  {
    LabelCmpTotal(r.owner, f(Canon(Keep(q, k)), c.salt, c.iterations));
    var z :| z in zone && f(z, c.salt, c.iterations) == r.owner;
    assert Tells(f, c, z, Canon(Keep(q, k)));
  }

  /** Two arcs of one chain that cover the same hash are the same arc. */
  lemma {:induction false} ArcUnique(f: HashFn, zone: set<Name>, c: Chain, r: N3, s: N3, h: Hash)
    requires TrueN3(f, zone, c, r) && TrueN3(f, zone, c, s) && InArc(r.owner, r.next, h) && InArc(s.owner, s.next, h)
    ensures r.owner == s.owner
  {
    hide LabelCmp, InChain;
    LabelCmpTotal(r.owner, s.owner);
    if LabelCmp(r.owner, s.owner) < 0 {
      ArcBefore(f, zone, c, r, s, h);
    } else if LabelCmp(s.owner, r.owner) < 0 {
      ArcBefore(f, zone, c, s, r, h);
    }
  }

  lemma {:induction false} ArcBefore(f: HashFn, zone: set<Name>, c: Chain, r: N3, s: N3, h: Hash)
    requires TrueN3(f, zone, c, r) && TrueN3(f, zone, c, s) && InArc(r.owner, r.next, h) && InArc(s.owner, s.next, h)
    ensures LabelCmp(r.owner, s.owner) >= 0
  {
    hide LabelCmp;
    EndsOutside(f, zone, c, r, s);
    EndsOutside(f, zone, c, s, r);
    OrderFacts(r.owner, s.owner, r.next, s.next, h);
  }

  lemma {:induction false} EndsOutside(f: HashFn, zone: set<Name>, c: Chain, r: N3, s: N3)
    requires TrueN3(f, zone, c, r) && TrueN3(f, zone, c, s)
    ensures !InArc(r.owner, r.next, s.owner) && !InArc(r.owner, r.next, s.next)
  {
    hide InArc;
    var z :| z in zone && f(z, c.salt, c.iterations) == s.owner;
    var y :| y in zone && f(y, c.salt, c.iterations) == s.next;
  }

  lemma {:induction false} OrderFacts(o: Hash, p: Hash, n: Hash, m: Hash, h: Hash)
    requires InArc(o, n, h) && InArc(p, m, h)
    requires !InArc(o, n, p) && !InArc(o, n, m) && !InArc(p, m, o) && !InArc(p, m, n)
    ensures LabelCmp(o, p) >= 0
  {
    hide LabelCmp;
    LabelCmpTotal(o, p);
    LabelCmpTotal(p, n);
    LabelCmpTotal(h, p);
    LabelCmpTotal(m, n);
    LabelCmpTotal(o, m);
    LabelCmpTotal(h, m);
    if LabelCmp(o, p) < 0 && LabelCmp(o, n) < 0 {
      LabelLtTrans(h, n, p);
      LabelLtTrans(o, h, m);
      LabelLtTrans(o, n, m);
    }
  }

  lemma {:induction false} LabelLtTrans(a: Hash, b: Hash, c: Hash)
    ensures LabelCmp(a, b) < 0 && LabelCmp(b, c) <= 0 ==> LabelCmp(a, c) < 0
    ensures LabelCmp(a, b) <= 0 && LabelCmp(b, c) < 0 ==> LabelCmp(a, c) < 0
  {
    hide LabelCmp;
    if LabelCmp(a, b) <= 0 && LabelCmp(b, c) <= 0 {
      LabelCmpTrans(a, b, c);
      LabelCmpTotal(a, c);
      LabelCmpTotal(a, b);
      LabelCmpTotal(c, b);
      LabelCmpTotal(b, c);
    }
  }

  /**
   A positive answer is right: the encloser found is the deepest ancestor of q in the zone,
   nothing of the zone is at or below the next closer name, the wildcard is not there, and the
   answer is the weaker one exactly when the chain's arc over the next closer name is opt-out.
   */
  lemma {:induction false} NxdomainSound(f: HashFn, zone: set<Name>, apex: Name, c: Chain, rrs: Records, q: Name,
                                         p: N3, k: nat, at: nat)
    requires AncestorClosed(zone, apex) && TrueRecords(f, zone, c, rrs) && NoCollision(f, zone, c, q)
    requires Under(Canon(q), apex) && NxProof(f, rrs, q, apex, p, k, at)
    ensures Canon(Keep(q, k)) in zone
    ensures forall z :: z in zone ==> !Under(z, Canon(Keep(q, k + 1)))
    ensures Canon([STAR] + Keep(q, k)) !in zone
    ensures forall i :: 0 <= i < |rrs| && CoveredBy(rrs[i], p, f(Canon(Keep(q, k + 1)), c.salt, c.iterations)) ==>
              rrs[i].value.optOut == rrs[at].value.optOut
    ensures rrs[at].value.optOut == c.optOut(rrs[at].value.owner)
  {
    hide InArc, Canon, Keep, Under, LabelCmp, TrueN3, NoCollision, AncestorClosed;
    var ip :| 0 <= ip < |rrs| && rrs[ip] == Some(p);
    TrueParams(f, zone, c, p);
    var nc, wc := Keep(q, k + 1), [STAR] + Keep(q, k);
    var h := f(Canon(nc), c.salt, c.iterations);
    var i :| 0 <= i < |rrs| && MatchedBy(rrs[i], p, HashOf(f, Keep(q, k), p).value);
    MatchedIsPresent(f, zone, c, rrs[i].value, q, k);
    CoveredIsAbsent(f, zone, c, rrs[at].value, Canon(nc));
    NothingBelow(zone, apex, q, k + 1);
    var j :| 0 <= j < |rrs| && CoveredBy(rrs[j], p, HashOf(f, wc, p).value);
    CoveredIsAbsent(f, zone, c, rrs[j].value, Canon(wc));
    TrueParams(f, zone, c, rrs[at].value);
    forall m | 0 <= m < |rrs| && CoveredBy(rrs[m], p, h)
      ensures rrs[m].value.optOut == rrs[at].value.optOut
    {
      ArcUnique(f, zone, c, rrs[m].value, rrs[at].value, h);
      TrueParams(f, zone, c, rrs[m].value);
      TrueParams(f, zone, c, rrs[at].value);
    }
  }

  lemma {:induction false} TrueParams(f: HashFn, zone: set<Name>, c: Chain, r: N3)
    requires TrueN3(f, zone, c, r)
    ensures r.alg == SHA1_ALG && r.salt == c.salt && r.iterations == c.iterations && r.optOut == c.optOut(r.owner)
  {
  }

  // An ancestor-closed zone that lacks a suffix of q has nothing below it either.
  lemma {:induction false} NothingBelow(zone: set<Name>, apex: Name, q: Name, k: nat)
    requires AncestorClosed(zone, apex) && Under(Canon(q), apex) && |apex| <= k <= |q| && Canon(Keep(q, k)) !in zone
    ensures forall z :: z in zone ==> !Under(z, Canon(Keep(q, k)))
  {
    var s := Canon(Keep(q, k));
    forall z | z in zone
      ensures !Under(z, s)
    {
      assert Under(z, s) ==> Keep(z, k) == s && k <= |z|;
    }
  }

  // ---------------------------------------------------------------------------
  // Completeness
  // ---------------------------------------------------------------------------

  ghost predicate WholeChain(f: HashFn, zone: set<Name>, c: Chain, rrs: Records) {
    && TrueRecords(f, zone, c, rrs)
    && forall z :: z in zone ==>
         exists i :: 0 <= i < |rrs| && rrs[i].Some? && rrs[i].value.owner == f(z, c.salt, c.iterations)
  }

  /** q is below the apex, the zone does not have it, and no wildcard could have answered it. */
  ghost predicate Deniable(zone: set<Name>, apex: Name, q: Name) {
    && Under(Canon(q), apex) && Canon(q) !in zone
    && forall k :: 0 <= k < |q| && Canon(Keep(q, k)) in zone && Canon(Keep(q, k + 1)) !in zone ==>
         Canon([STAR] + Keep(q, k)) !in zone
  }

  // The hash order's last name of the zone that is before h, or the last of all when none is.
  lemma {:induction false} LastBefore(f: HashFn, zone: set<Name>, c: Chain, h: Hash, below: bool, z: Name)
    returns (m: Name)
    requires z in zone && (below ==> LabelCmp(f(z, c.salt, c.iterations), h) < 0)
    ensures m in zone && (below ==> LabelCmp(f(m, c.salt, c.iterations), h) < 0)
    ensures forall y :: y in zone && (below ==> LabelCmp(f(y, c.salt, c.iterations), h) < 0) ==>
              LabelCmp(f(y, c.salt, c.iterations), f(m, c.salt, c.iterations)) <= 0
    decreases |zone|
  {
    hide LabelCmp;
    var rest := zone - {z};
    var hz := f(z, c.salt, c.iterations);
    if exists y :: y in rest && (below ==> LabelCmp(f(y, c.salt, c.iterations), h) < 0) {
      var y :| y in rest && (below ==> LabelCmp(f(y, c.salt, c.iterations), h) < 0);
      m := LastBefore(f, rest, c, h, below, y);
      var hm := f(m, c.salt, c.iterations);
      LabelCmpTotal(hz, hm);
      if LabelCmp(hm, hz) < 0 {
        forall w | w in zone && (below ==> LabelCmp(f(w, c.salt, c.iterations), h) < 0)
          ensures LabelCmp(f(w, c.salt, c.iterations), hz) <= 0
        {
          LabelCmpTotal(hz, hz);
          if w in rest {
            LabelLtTrans(f(w, c.salt, c.iterations), hm, hz);
          }
        }
        m := z;
      }
    } else {
      m := z;
      LabelCmpTotal(hz, hz);
    }
  }

  // With the whole chain, a hash of no name of the zone is covered.
  lemma {:induction false} ChainCovers(f: HashFn, zone: set<Name>, c: Chain, rrs: Records, p: N3, h: Hash, z: Name)
    requires WholeChain(f, zone, c, rrs) && TrueN3(f, zone, c, p) && z in zone && !InChain(f, zone, c, h)
    ensures exists i :: 0 <= i < |rrs| && CoveredBy(rrs[i], p, h)
  {
    hide LabelCmp, InArc, TrueN3;
    var below := exists y :: y in zone && LabelCmp(f(y, c.salt, c.iterations), h) < 0;
    var start := z;
    if below {
      start :| start in zone && LabelCmp(f(start, c.salt, c.iterations), h) < 0;
    }
    var m := LastBefore(f, zone, c, h, below, start);
    var i :| 0 <= i < |rrs| && rrs[i].Some? && rrs[i].value.owner == f(m, c.salt, c.iterations);
    LastArcCovers(f, zone, c, rrs[i].value, h, below, m);
    TrueParams(f, zone, c, p);
    TrueParams(f, zone, c, rrs[i].value);
    assert CoveredBy(rrs[i], p, h);
  }

  lemma {:induction false} LastArcCovers(f: HashFn, zone: set<Name>, c: Chain, r: N3, h: Hash, below: bool, m: Name)
    requires TrueN3(f, zone, c, r) && m in zone && r.owner == f(m, c.salt, c.iterations) && !InChain(f, zone, c, h)
    requires below <==> exists y :: y in zone && LabelCmp(f(y, c.salt, c.iterations), h) < 0
    requires below ==> LabelCmp(r.owner, h) < 0
    requires forall y :: y in zone && (below ==> LabelCmp(f(y, c.salt, c.iterations), h) < 0) ==>
               LabelCmp(f(y, c.salt, c.iterations), r.owner) <= 0
    ensures InArc(r.owner, r.next, h)
  {
    hide LabelCmp;
    var y :| y in zone && f(y, c.salt, c.iterations) == r.next;
    LabelCmpTotal(r.next, r.owner);
    LabelCmpTotal(r.next, h);
    assert LabelCmp(r.next, h) != 0;
  }

  /**
   With the whole chain at hand, every name below the apex that the zone does not have, and
   that no wildcard could have answered, has a proof.
   */
  lemma {:induction false} NxdomainComplete(f: HashFn, zone: set<Name>, apex: Name, c: Chain, rrs: Records, q: Name,
                                            p: N3)
    requires AncestorClosed(zone, apex) && WholeChain(f, zone, c, rrs) && NoCollision(f, zone, c, q)
    requires c.iterations <= MAX_ITER && Some(p) in rrs && Deniable(zone, apex, q)
    ensures exists k, at :: NxProof(f, rrs, q, apex, p, k, at)
  {
    hide InArc, Canon, Keep, Under, LabelCmp, TrueN3, NoCollision, AncestorClosed, CoveredBy, MatchedBy;
    assert TrueN3(f, zone, c, p);
    TrueParams(f, zone, c, p);
    ApexFacts(zone, apex, q);
    var k := DeepestIn(f, zone, q, |apex|);
    forall j | |apex| <= j <= |q|
      ensures AnyMatch(f, rrs, p, Keep(q, j)) <==> Canon(Keep(q, j)) in zone
    {
      MatchIffIn(f, zone, c, rrs, q, p, j);
    }
    var nc, wc := Keep(q, k + 1), [STAR] + Keep(q, k);
    AbsentNotInChain(f, zone, c, q, k);
    ChainCovers(f, zone, c, rrs, p, f(Canon(nc), c.salt, c.iterations), apex);
    ChainCovers(f, zone, c, rrs, p, f(Canon(wc), c.salt, c.iterations), apex);
    var at := FirstOf(rrs, p, f(Canon(nc), c.salt, c.iterations));
    WildcardUnmatched(f, zone, c, rrs, q, p, k);
    assert NxProof(f, rrs, q, apex, p, k, at);
  }

  lemma {:induction false} ApexFacts(zone: set<Name>, apex: Name, q: Name)
    requires AncestorClosed(zone, apex) && Under(Canon(q), apex) && Canon(q) !in zone
    ensures apex in zone && |apex| < |q| && Canon(Keep(q, |apex|)) == apex && Canon(Keep(q, |q|)) !in zone
  {
    KeepAll(q);
    CanonKeep(q, |apex|);
    KeepAll(Canon(q));
  }

  // The deepest suffix of q in the zone.
  lemma {:induction false} DeepestIn(f: HashFn, zone: set<Name>, q: Name, k0: nat) returns (k: nat)
    requires k0 <= |q| && Canon(Keep(q, k0)) in zone && Canon(Keep(q, |q|)) !in zone
    ensures k0 <= k < |q| && Canon(Keep(q, k)) in zone && forall j :: k < j <= |q| ==> Canon(Keep(q, j)) !in zone
  {
    hide Canon, Keep;
    k := |q|;
    while Canon(Keep(q, k)) !in zone
      invariant k0 <= k <= |q|
      decreases k
      invariant forall j :: k < j <= |q| ==> Canon(Keep(q, j)) !in zone
    {
      k := k - 1;
    }
  }

  lemma {:induction false} MatchIffIn(f: HashFn, zone: set<Name>, c: Chain, rrs: Records, q: Name, p: N3, j: nat)
    requires WholeChain(f, zone, c, rrs) && NoCollision(f, zone, c, q) && TrueN3(f, zone, c, p) && j <= |q|
    requires c.iterations <= MAX_ITER
    ensures AnyMatch(f, rrs, p, Keep(q, j)) <==> Canon(Keep(q, j)) in zone
  {
    hide Canon, Keep, LabelCmp, TrueN3, NoCollision;
    TrueParams(f, zone, c, p);
    var h := f(Canon(Keep(q, j)), c.salt, c.iterations);
    if AnyMatch(f, rrs, p, Keep(q, j)) {
      var i :| 0 <= i < |rrs| && MatchedBy(rrs[i], p, h);
      MatchedIsPresent(f, zone, c, rrs[i].value, q, j);
    }
    if Canon(Keep(q, j)) in zone {
      var i :| 0 <= i < |rrs| && rrs[i].Some? && rrs[i].value.owner == h;
      TrueParams(f, zone, c, rrs[i].value);
      LabelCmpTotal(h, h);
      assert MatchedBy(rrs[i], p, h);
    }
  }

  lemma {:induction false} AbsentNotInChain(f: HashFn, zone: set<Name>, c: Chain, q: Name, k: nat)
    requires NoCollision(f, zone, c, q) && k < |q| && Canon(Keep(q, k + 1)) !in zone
    requires Canon([STAR] + Keep(q, k)) !in zone
    ensures !InChain(f, zone, c, f(Canon(Keep(q, k + 1)), c.salt, c.iterations))
    ensures !InChain(f, zone, c, f(Canon([STAR] + Keep(q, k)), c.salt, c.iterations))
  {
    forall z | z in zone
      ensures Tells(f, c, z, Canon(Keep(q, k + 1))) && Tells(f, c, z, Canon([STAR] + Keep(q, k)))
    {
    }
  }

  lemma {:induction false} WildcardUnmatched(f: HashFn, zone: set<Name>, c: Chain, rrs: Records, q: Name, p: N3, k: nat)
    requires TrueRecords(f, zone, c, rrs) && TrueN3(f, zone, c, p) && c.iterations <= MAX_ITER
    requires !InChain(f, zone, c, f(Canon([STAR] + Keep(q, k)), c.salt, c.iterations))
    ensures !AnyMatch(f, rrs, p, [STAR] + Keep(q, k))
  {
    hide Canon, Keep, LabelCmp;
    var h := f(Canon([STAR] + Keep(q, k)), c.salt, c.iterations);
    forall i | 0 <= i < |rrs|
      ensures !MatchedBy(rrs[i], p, h)
    {
      if rrs[i].Some? {
        LabelCmpTotal(rrs[i].value.owner, h);
        assert TrueN3(f, zone, c, rrs[i].value);
      }
    }
  }

  lemma {:induction false} FirstOf(rrs: Records, p: N3, h: Hash) returns (i: nat)
    requires exists j :: 0 <= j < |rrs| && CoveredBy(rrs[j], p, h)
    ensures FirstCover(rrs, p, h, i)
  {
    hide CoveredBy;
    i := 0;
    while !CoveredBy(rrs[i], p, h)
      invariant i < |rrs| && exists j :: i <= j < |rrs| && CoveredBy(rrs[j], p, h)
      invariant forall j :: 0 <= j < i ==> !CoveredBy(rrs[j], p, h)
      decreases |rrs| - i
    {
      i := i + 1;
    }
  }

  // ---------------------------------------------------------------------------
  // The procedure and the zone together
  // ---------------------------------------------------------------------------

  /** What a positive answer tells about the zone; at is the arc over the next closer name. */
  ghost predicate Denied(f: HashFn, zone: set<Name>, c: Chain, rrs: Records, q: Name, r: Proof, k: nat, at: nat) {
    && k < |q| && Canon(Keep(q, k)) in zone && (forall z :: z in zone ==> !Under(z, Canon(Keep(q, k + 1))))
    && Canon([STAR] + Keep(q, k)) !in zone
    && at < |rrs| && rrs[at].Some? &&
        InArc(rrs[at].value.owner, rrs[at].value.next, f(Canon(Keep(q, k + 1)), c.salt, c.iterations))
    && (r == OptOutProof <==> c.optOut(rrs[at].value.owner))
  }

  lemma {:induction false} ApexFolded(f: HashFn, rrs: Records, q: Name, apex: Name, p: N3, k: nat, at: nat)
    ensures NxProof(f, rrs, q, apex, p, k, at) <==> NxProof(f, rrs, q, Canon(apex), p, k, at)
  {
    assert |Canon(apex)| == |apex|;
    hide Canon, AnyMatch, Keep, FirstCover, HashOf;
  }

  lemma {:induction false} ProofDenies(f: HashFn, zone: set<Name>, apex: Name, c: Chain, rrs: Records, q: Name,
                                       r: Proof, p: N3, k: nat, at: nat)
    requires AncestorClosed(zone, apex) && TrueRecords(f, zone, c, rrs) && NoCollision(f, zone, c, q)
    requires Under(Canon(q), apex) && NxProof(f, rrs, q, apex, p, k, at) && (r == OptOutProof <==> rrs[at].value.optOut)
    ensures Denied(f, zone, c, rrs, q, r, k, at)
  {
    hide AncestorClosed, NoCollision, Canon, Keep, Under, InArc, AnyMatch;
    NxdomainSound(f, zone, apex, c, rrs, q, p, k, at);
    var ip :| 0 <= ip < |rrs| && rrs[ip] == Some(p);
  }

  // With the whole chain some record parses; p is the first that does.
  lemma {:induction false} FirstParsed(f: HashFn, zone: set<Name>, c: Chain, rrs: Records, z: Name)
    returns (p: N3, i: nat)
    requires WholeChain(f, zone, c, rrs) && z in zone
    ensures i < |rrs| && rrs[i] == Some(p) && forall j :: 0 <= j < i ==> rrs[j].None?
  {
    hide TrueRecords;
    var s :| 0 <= s < |rrs| && rrs[s].Some? && rrs[s].value.owner == f(z, c.salt, c.iterations);
    i := 0;
    while rrs[i].None?
      invariant i <= s && forall j :: 0 <= j < i ==> rrs[j].None?
      decreases s - i
    {
      i := i + 1;
    }
    p := rrs[i].value;
  }

  /**
   The procedure and the zone together: a positive answer is right, opt-out exactly when the
   zone's arc over the next closer name is, and with the whole chain at hand, whatever else came
   along that does not parse, there is one for every name that can be denied.
   */
  method Deny(f: HashFn, ghost zone: set<Name>, ghost c: Chain, rrs: Records, q: Name, apex: Name)
    returns (r: Proof, ghost k: nat, ghost at: nat)
    requires NameOk(q) && NameOk(apex)
    requires AncestorClosed(zone, Canon(apex)) && TrueRecords(f, zone, c, rrs) && NoCollision(f, zone, c, q)
    ensures r != Unproven && Under(Canon(q), Canon(apex)) ==> Denied(f, zone, c, rrs, q, r, k, at)
    ensures WholeChain(f, zone, c, rrs) && c.iterations <= MAX_ITER && Deniable(zone, Canon(apex), q) ==> r != Unproven
  {
    hide NxProof, AncestorClosed, NoCollision, TrueRecords, WholeChain, Canon, Under, Denied, NameOk;
    ghost var p;
    r, p, k, at := ProvesNxdomain(f, rrs, q, apex);
    if r != Unproven && Under(Canon(q), Canon(apex)) {
      ApexFolded(f, rrs, q, apex, p, k, at);
      ProofDenies(f, zone, Canon(apex), c, rrs, q, r, p, k, at);
    }
    if r == Unproven && WholeChain(f, zone, c, rrs) && c.iterations <= MAX_ITER && Deniable(zone, Canon(apex), q) {
      ghost var p1, i := FirstParsed(f, zone, c, rrs, Canon(apex)) by {
        ApexIn(zone, Canon(apex));
      }
      NxdomainComplete(f, zone, Canon(apex), c, rrs, q, p1);
      ghost var k1, at1 :| NxProof(f, rrs, q, Canon(apex), p1, k1, at1);
      ApexFolded(f, rrs, q, apex, p1, k1, at1);
    }
  }

  lemma {:induction false} ApexIn(zone: set<Name>, apex: Name)
    requires AncestorClosed(zone, apex)
    ensures apex in zone
  {
  }

  // Labels of the example zone.
  const B: Label := [98]
  const X: Label := [120]

  // A hash that tells x from everything else.
  function SmallHash(n: Name, salt: seq<byte>, iterations: nat): Hash {
    if n == [X] then [1] else [0]
  }

  predicate NoOptOut(h: Hash) {
    false
  }

  /**
   The premises of completeness can be met: the zone x, its one NSEC3, a record that does not
   parse, and the name b.x.
   */
  lemma {:induction false} DeniableMet()
    ensures var zone, c, p, q := {[X]}, Chain([], 0, NoOptOut), N3(SHA1_ALG, false, 0, [], [1], [1]), [B, X];
            && AncestorClosed(zone, [X]) && WholeChain(SmallHash, zone, c, [None, Some(p)]) &&
                NoCollision(SmallHash, zone, c, q)
            && Some(p) in [None, Some(p)] && Deniable(zone, [X], q)
  {
    var apex: Name, q: Name := [X], [B, X];
    var c, p := Chain([], 0, NoOptOut), N3(SHA1_ALG, false, 0, [], [1], [1]);
    SmallFolds();
    SmallChain(c, p, apex);
    SmallTells(c, apex, q);
    SmallDeniable(apex, q);
  }

  lemma {:induction false} SmallFolds()
    ensures Canon([X]) == [X] && Canon([B, X]) == [B, X]
  {
    assert Fold(X) == X && Fold(B) == B;
  }

  lemma {:induction false} SmallChain(c: Chain, p: N3, apex: Name)
    requires apex == [X] && c == Chain([], 0, NoOptOut) && p == N3(SHA1_ALG, false, 0, [], [1], [1])
    ensures WholeChain(SmallHash, {apex}, c, [None, Some(p)])
  {
    var h := SmallHash(apex, c.salt, c.iterations);
    LabelCmpTotal(h, h);
    assert InChain(SmallHash, {apex}, c, h);
    assert TrueN3(SmallHash, {apex}, c, p);
    assert [None, Some(p)][1].value.owner == h;
  }

  lemma {:induction false} SmallTells(c: Chain, apex: Name, q: Name)
    requires apex == [X]
    ensures NoCollision(SmallHash, {apex}, c, q)
  {
  }

  lemma {:induction false} SmallDeniable(apex: Name, q: Name)
    requires apex == [X] && |q| == 2 && q[1..] == apex && Canon(q) == q
    ensures AncestorClosed({apex}, apex) && Deniable({apex}, apex, q)
  {
    hide Canon;
    KeepAll(apex);
    forall n: Name
      ensures Canon([STAR] + n) != apex
    {
      CanonStar(n);
    }
  }
}
