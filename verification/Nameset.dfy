/**
 A fixed set of names looked up one suffix at a time (src/nameset.c): open addressing with
 linear probing, and the deepest listed suffix of a query name.
 */
module Nameset {
  import opened Words
  import opened Names
  import NameText

  /** A slot holds a listed name, folded. */
  type Slots = seq<Option<Name>>

  // ---------------------------------------------------------------------------
  // Probing
  // ---------------------------------------------------------------------------

  /** Where find stops: at the key, or at the first empty slot. */
  function Probe(s: Slots, k: Name, j: nat, n: nat): (r: nat)
    requires j < |s|
    ensures r < |s|
    decreases n
  {
    if n == 0 || s[j] == None || s[j] == Some(k) then j else Probe(s, k, Next(j, |s|), n - 1)
  }

  /** The slot after j; the table size is a power of two, so this is the masked increment. */
  function Next(j: nat, m: nat): (r: nat)
    requires j < m
    ensures r < m
  {
    if j + 1 == m then 0 else j + 1
  }

  /** How far z is from j, going round. */
  function Gap(j: nat, z: nat, m: nat): nat
    requires j < m && z < m
  {
    if j <= z then z - j else z + m - j
  }

  function Home(s: Slots, hash: Name -> nat, k: Name): (r: nat)
    requires |s| > 0
    ensures r < |s|
  {
    hash(k) % |s|
  }

  function Find(s: Slots, hash: Name -> nat, k: Name): (r: nat)
    requires |s| > 0
    ensures r < |s|
  {
    Probe(s, k, Home(s, hash, k), |s|)
  }

  function Count(s: Slots): (c: nat)
    ensures c <= |s|
  {
    if |s| == 0 then 0 else Count(s[..|s| - 1]) + if s[|s| - 1].Some? then 1 else 0
  }

  /** Looking for any name in the table lands on its slot. */
  ghost predicate Reachable(s: Slots, hash: Name -> nat) {
    |s| > 0 && forall i :: 0 <= i < |s| && s[i].Some? ==> Find(s, hash, s[i].value) == i
  }

  ghost predicate Holds(s: Slots, k: Name) {
    Some(k) in s
  }

  lemma {:induction false} ProbeEnds(s: Slots, k: Name, j: nat, n: nat, z: nat)
    requires j < |s| && z < |s| && s[z] == None && Gap(j, z, |s|) < n
    ensures var r := Probe(s, k, j, n); s[r] == None || s[r] == Some(k)
    decreases n
  {
    if s[j].Some? && s[j] != Some(k) {
      ProbeEnds(s, k, Next(j, |s|), n - 1, z);
    }
  }

  lemma {:induction false} EmptySlot(s: Slots) returns (z: nat)
    requires Count(s) < |s|
    ensures z < |s| && s[z] == None
  {
    var n := |s| - 1;
    if s[n] == None {
      z := n;
    } else {
      z := EmptySlot(s[..n]);
    }
  }

  /** With an empty slot somewhere, find ends at the name or where it would go. */
  lemma {:induction false} FindEnds(s: Slots, hash: Name -> nat, k: Name)
    requires Count(s) < |s|
    ensures var r := Find(s, hash, k); s[r] == None || s[r] == Some(k)
  {
    hide Probe;
    var z := EmptySlot(s);
    var h := Home(s, hash, k);
    ProbeEnds(s, k, h, |s|, z);
  }

  /** find tells membership. */
  lemma {:induction false} FindTells(s: Slots, hash: Name -> nat, k: Name)
    requires Reachable(s, hash) && Count(s) < |s|
    ensures s[Find(s, hash, k)] == Some(k) <==> Holds(s, k)
    ensures s[Find(s, hash, k)] == None <==> !Holds(s, k)
  {
    hide Find;
    FindEnds(s, hash, k);
    if Holds(s, k) {
      var i :| 0 <= i < |s| && s[i] == Some(k);
      assert Find(s, hash, s[i].value) == i;
    }
  }

  /** Filling the empty slot e does not change where the search for a name that is there ends. */
  lemma {:induction false} ProbeStable(s: Slots, k: Name, j: nat, n: nat, e: nat, x: Name)
    requires j < |s| && e < |s| && s[e] == None && s[Probe(s, k, j, n)].Some?
    ensures Probe(s[e := Some(x)], k, j, n) == Probe(s, k, j, n)
    decreases n
  {
    if n > 0 && s[j].Some? && s[j] != Some(k) {
      ProbeStable(s, k, Next(j, |s|), n - 1, e, x);
    }
  }

  /** And the search for the new name now ends there. */
  lemma {:induction false} ProbeNew(s: Slots, k: Name, j: nat, n: nat)
    requires j < |s| && s[Probe(s, k, j, n)] == None
    ensures Probe(s[Probe(s, k, j, n) := Some(k)], k, j, n) == Probe(s, k, j, n)
    decreases n
  {
    if n > 0 && s[j].Some? && s[j] != Some(k) {
      ProbeNew(s, k, Next(j, |s|), n - 1);
    }
  }

  lemma {:induction false} Stored(s: Slots, hash: Name -> nat, k: Name)
    requires Reachable(s, hash) && s[Find(s, hash, k)] == None
    ensures var s' := s[Find(s, hash, k) := Some(k)];
      Reachable(s', hash) && Count(s') == Count(s) + 1 && forall m :: Holds(s', m) <==> Holds(s, m) || m == k
  {
    hide Probe;
    var e := Find(s, hash, k);
    var s' := s[e := Some(k)];
    forall i | 0 <= i < |s'| && s'[i].Some?
      ensures Find(s', hash, s'[i].value) == i
    {
      if i == e {
        ProbeNew(s, k, Home(s, hash, k), |s|);
      } else {
        var m := s[i].value;
        assert Find(s, hash, m) == i;
        ProbeStable(s, m, Home(s, hash, m), |s|, e, k);
      }
    }
    CountStored(s, e, k);
    forall m
      ensures Holds(s', m) <==> Holds(s, m) || m == k
    {
      if Holds(s, m) {
        var i :| 0 <= i < |s| && s[i] == Some(m);
        assert s'[i] == Some(m);
      }
      assert s'[e] == Some(k);
    }
  }

  lemma {:induction false} CountStored(s: Slots, e: nat, k: Name)
    requires e < |s| && s[e] == None
    ensures Count(s[e := Some(k)]) == Count(s) + 1
  {
    var n := |s| - 1;
    if e < n {
      CountStored(s[..n], e, k);
      assert s[e := Some(k)][..n] == s[..n][e := Some(k)];
    } else {
      assert s[e := Some(k)][..n] == s[..n];
    }
  }

  // ---------------------------------------------------------------------------
  // The set
  // ---------------------------------------------------------------------------

  /** The listed names, as parsed: None for text that is no name.  The root is refused too. */
  ghost predicate Listed(names: seq<Option<Name>>, k: Name) {
    exists i :: 0 <= i < |names| && names[i].Some? && names[i].value != [] && Canon(names[i].value) == k
  }

  ghost predicate Agrees(s: Slots, names: seq<Option<Name>>) {
    forall k :: Holds(s, k) <==> Listed(names, k)
  }

  ghost predicate Brackets(s: Slots, lo: nat, hi: nat) {
    forall k :: Holds(s, k) ==> lo <= |k| <= hi
  }

  lemma {:induction false} AgreesSame(s: Slots, names: seq<Option<Name>>, x: Option<Name>)
    requires Agrees(s, names) && (x.None? || x.value == [] || Holds(s, Canon(x.value)))
    ensures Agrees(s, names + [x])
  {
    hide Holds, Listed, Canon;
    forall k
      ensures Holds(s, k) <==> Listed(names + [x], k)
    {
      ListedMore(names, x, k);
    }
  }

  lemma {:induction false} AgreesNew(s: Slots, s': Slots, names: seq<Option<Name>>, x: Name, lo: nat, hi: nat,
                                     lo': nat, hi': nat)
    requires Agrees(s, names) && Brackets(s, lo, hi) && x != []
    requires forall m :: Holds(s', m) <==> Holds(s, m) || m == Canon(x)
    requires lo' <= lo && lo' <= |x| && hi <= hi' && |x| <= hi'
    ensures Agrees(s', names + [Some(x)]) && Brackets(s', lo', hi')
  {
    hide Holds, Listed, Canon;
    forall k
      ensures Holds(s', k) <==> Listed(names + [Some(x)], k)
    {
      ListedMore(names, Some(x), k);
    }
  }

  function Parsed(texts: seq<seq<byte>>): seq<Option<Name>> {
    if |texts| == 0 then [] else Parsed(texts[..|texts| - 1]) + [NameText.FromText(texts[|texts| - 1])]
  }

  /** What is allocated for the packed names. */
  function Total(texts: seq<seq<byte>>): nat {
    if |texts| == 0 then 0 else Total(texts[..|texts| - 1]) + |texts[|texts| - 1]| + 2
  }

  class NameSet {
    const hash: Name -> nat
    var slots: Slots
    var count: nat
    var minLabels: nat
    var maxLabels: nat
    /** Bytes taken of the buffer the names are packed into. */
    var used: nat
    ghost var names: seq<Option<Name>>

    /** The table holds the listed names, at most half full; the label counts bracket theirs. */
    ghost predicate Valid()
      reads this
    {
      && Reachable(slots, hash) && Count(slots) == count && 2 * count <= |slots| && 1 <= minLabels
      && Agrees(slots, names) && Brackets(slots, minLabels, maxLabels)
    }

    /** find. */
    method FindSlot(k: Name) returns (j: nat)
      requires Reachable(slots, hash) && Count(slots) < |slots|
      ensures j == Find(slots, hash, k)
      ensures slots[j].Some? <==> Holds(slots, k)
    {
      hide Reachable, Count, Holds;
      ghost var z := EmptySlot(slots);
      ghost var n: nat := |slots|;
      j := hash(k) % |slots|;
      while slots[j].Some?
        invariant j < |slots| && Probe(slots, k, j, n) == Find(slots, hash, k) && Gap(j, z, |slots|) < n
        decreases Gap(j, z, |slots|)
      {
        if slots[j].value == k {
          break;
        }
        j, n := Next(j, |slots|), n - 1;
      }
      FindTells(slots, hash, k);
    }

    /** elpis_nameset_build. */
    constructor (h: Name -> nat, texts: seq<seq<byte>>)
      ensures Valid() && hash == h && names == Parsed(texts) && used <= Total(texts)
    {
      hash := h;
      new;
      hide Reachable, Count;
      var size := 4;
      while size < 2 * |texts|
        decreases 2 * |texts| - size
        invariant size >= 4
      {
        size := size * 2;
      }
      slots, count, minLabels, maxLabels, used, names := seq(size, _ => None), 0, MAX_LABELS, 0, 0, [];
      EmptyTable(slots, hash);
      for i := 0 to |texts|
        invariant names == Parsed(texts[..i]) && |slots| == size && count <= i && Valid() && used <= Total(texts[..i])
      {
        var x := NameText.ReadText(texts[i]);
        if x.Some? {
          NameText.FromTextSound(texts[i]);
        }
        Put(x);
        assert texts[..i + 1][..i] == texts[..i];
      }
      assert texts[..|texts|] == texts;
    }

    /** One more name of the list. */
    method Put(x: Option<Name>)
      requires Valid() && 2 * (count + 1) <= |slots|
      modifies this
      ensures Valid() && names == old(names) + [x] && |slots| == old(|slots|) && count <= old(count) + 1
      ensures used <= old(used) + if x.Some? then WireLen(x.value) else 0
    {
      hide Reachable, Count, Holds, Find, Agrees, Brackets, Canon, WireLen;
      ghost var s, list := slots, names;
      names := names + [x];
      if x.None? || x.value == [] {
        AgreesSame(slots, list, x);
        return;
      }
      var k := Canon(x.value);
      var j := FindSlot(k);
      if slots[j].Some? {
        AgreesSame(slots, list, x);
        return;
      }
      Stored(slots, hash, k);
      ghost var lo, hi := minLabels, maxLabels;
      slots, count, used := slots[j := Some(k)], count + 1, used + WireLen(x.value);
      if |k| < minLabels {
        minLabels := |k|;
      }
      if |k| > maxLabels {
        maxLabels := |k|;
      }
      AgreesNew(s, slots, list, x.value, lo, hi, minLabels, maxLabels);
    }

    /** elpis_nameset_match: the label count of the deepest listed suffix of q, or 0. */
    method Match(q: Name) returns (labels: nat)
      requires Valid()
      ensures labels <= |q| && (labels > 0 ==> Listed(names, Keep(Canon(q), labels)))
      ensures forall k :: Listed(names, k) && Under(Canon(q), k) ==> |k| <= labels
    {
      hide Reachable, Count, Find, Keep, Canon;
      if count == 0 {
        NoneHeld(slots);
        return 0;
      }
      labels := |q|;
      ghost var u := Canon(q);
      while labels >= minLabels
        invariant labels <= |q|
        invariant forall k :: Listed(names, k) && Under(u, k) ==> |k| <= labels
      {
        if labels <= maxLabels {
          CanonKeep(q, labels);
          var k := Canon(Keep(q, labels));
          var j := FindSlot(k);
          if slots[j].Some? {
            return;
          }
        }
        forall k | Listed(names, k) && Under(u, k)
          ensures |k| <= labels - 1
        {
          UnderKeep(u, k);
          assert Holds(slots, k);
        }
        labels := labels - 1;
      }
      labels := 0;
    }
  }

  lemma {:induction false} UnderKeep(u: Name, k: Name)
    requires Under(u, k)
    ensures k == Keep(u, |k|)
  {
  }

  lemma {:induction false} NoneHeld(s: Slots)
    requires Count(s) == 0
    ensures forall k :: !Holds(s, k)
  {
    AllEmpty(s);
  }

  lemma {:induction false} AllEmpty(s: Slots)
    requires Count(s) == 0
    ensures forall i :: 0 <= i < |s| ==> s[i] == None
  {
    if |s| > 0 {
      AllEmpty(s[..|s| - 1]);
    }
  }

  lemma {:induction false} ListedMore(names: seq<Option<Name>>, x: Option<Name>, k: Name)
    ensures Listed(names + [x], k) <==> Listed(names, k) || (x.Some? && x.value != [] && Canon(x.value) == k)
  {
    hide Canon;
    var all := names + [x];
    assert all[|names|] == x;
    if Listed(names, k) {
      var i :| 0 <= i < |names| && names[i].Some? && names[i].value != [] && Canon(names[i].value) == k;
      assert all[i] == names[i];
    }
  }

  lemma {:induction false} EmptyTable(s: Slots, hash: Name -> nat)
    requires |s| > 0 && forall i :: 0 <= i < |s| ==> s[i] == None
    ensures Count(s) == 0 && Reachable(s, hash)
  {
    NoneCounted(s);
  }

  lemma {:induction false} NoneCounted(s: Slots)
    requires forall i :: 0 <= i < |s| ==> s[i] == None
    ensures Count(s) == 0
  {
    if |s| > 0 {
      NoneCounted(s[..|s| - 1]);
    }
  }
}
