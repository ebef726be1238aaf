/**
 One shard of the cache (src/cache/cache.c) under its lock: lookup, insertion, removal,
 CLOCK eviction, expiry, flush and rehash, each proved against the plain map of keys to
 entries that the shard stands for.
 */
module Cache {
  import opened Words
  import opened SwissTable

  /** m is n with some keys taken out. */
  ghost predicate Submap<K, V>(m: map<K, V>, n: map<K, V>) {
    m.Keys <= n.Keys && forall k :: k in m ==> m[k] == n[k]
  }

  /** An entry the sweep may take. */
  predicate Evictable<K>(e: Entry<K>, now: nat) {
    e.Expired(now) || !e.pinned
  }

  /** Every group before the group of slot i, on the path from p, is full. */
  ghost predicate PathFull(ctrl: seq<nat>, cap: nat, p: nat, i: nat)
    requires |ctrl| >= cap && p < cap && i < cap
  {
    forall j :: 0 <= j < cap && Dist(p, j, cap) / GROUP < Dist(p, i, cap) / GROUP ==> IsFull(ctrl[j])
  }

  /** Of the slots of s0, those within k of the hand h0 have lost what had expired; all else is as it was. */
  ghost predicate Expunged<K>(s0: seq<Option<Entry<K>>>, s1: seq<Option<Entry<K>>>, h0: nat, cap: nat, k: nat,
                              now: nat) {
    && |s0| == |s1| == cap && h0 < cap
    && forall i :: 0 <= i < cap ==>
         s1[i] == if Dist(h0, i, cap) < k && s0[i].Some? && s0[i].value.Expired(now) then None else s0[i]
  }

  lemma {:induction false} ExpungedNone<K>(s: seq<Option<Entry<K>>>, h0: nat, cap: nat, now: nat)
    requires |s| == cap && h0 < cap
    ensures Expunged(s, s, h0, cap, 0, now)
  {
  }

  // One more slot under the hand.
  lemma {:induction false} ExpungedMore<K>(s0: seq<Option<Entry<K>>>, s1: seq<Option<Entry<K>>>, h0: nat, cap: nat,
                                           k: nat, now: nat, j: nat)
    requires Expunged(s0, s1, h0, cap, k, now) && j < cap && (k < cap ==> Dist(h0, j, cap) == k)
    ensures Expunged(s0, if s1[j].Some? && s1[j].value.Expired(now) then s1[j := None] else s1, h0, cap, k + 1, now)
  {
    if k < cap {
      forall i | 0 <= i < cap && Dist(h0, i, cap) == k
        ensures i == j
      {
      }
    }
  }

  class Shard<K(==)> {
    var ctrl: seq<nat>
    var slots: seq<Option<Entry<K>>>
    var cap: nat
    var used: nat
    var tomb: nat
    var hand: nat
    var bytes: nat
    const bytesMax: nat
    var pinnedEntries: nat
    var pinnedBytes: nat

    ghost predicate Valid()
      reads this
    {
      && TableOk(ctrl, slots, cap) && hand < cap
      && used == Sum(Live<K>, slots) && tomb == Sum(Tomb, ctrl[..cap]) && 8 * (used + tomb) <= 7 * cap
      && bytes == Sum(Bytes<K>, slots)
      && pinnedEntries == Sum(PinOne<K>, slots) && pinnedBytes == Sum(PinBytes<K>, slots)
    }

    /** The map this shard stands for, keyed by hash and key. */
    ghost function Map(): map<(nat, K), Entry<K>>
      reads this
    {
      Contents(slots)
    }

    constructor (bytesMax: nat)
      ensures Valid() && Map() == map[] && this.bytesMax == bytesMax
    {
      this.bytesMax := bytesMax;
      ctrl := seq(MIN_CAP + GROUP, _ => EMPTY);
      slots := seq(MIN_CAP, _ => None);
      cap, used, tomb, hand := MIN_CAP, 0, 0, 0;
      bytes, pinnedEntries, pinnedBytes := 0, 0, 0;
      new;
      MinCapOk();
      EmptyOk(ctrl, slots, cap);
      NoEntries(slots);
      NoTombs(ctrl[..cap]);
    }

    // Looks for the key in the sixteen slots from distance d on.
    method ProbeGroup(hash: nat, key: K, d: nat) returns (r: Option<nat>)
      requires TableOk(ctrl, slots, cap) && d + GROUP <= cap
      ensures r.Some? ==> HoldsAt(slots, r.value, hash, key)
      ensures r.None? ==>
                forall i :: 0 <= i < cap && d <= Dist(Home(hash, cap), i, cap) < d + GROUP ==>
                  !HoldsAt(slots, i, hash, key)
    {
      hide Home, Mask, PowerOfTwo;
      ghost var p := Home(hash, cap);
      var g := At(Home(hash, cap), d, cap);
      var b := 0;
      while b < GROUP
        invariant 0 <= b <= GROUP
        invariant forall i :: 0 <= i < cap && d <= Dist(p, i, cap) < d + b ==> !HoldsAt(slots, i, hash, key)
      {
        GroupByte(ctrl, cap, p, d, b);
        assert Agrees(ctrl[At(p, d + b, cap)], slots[At(p, d + b, cap)]);
        if ctrl[g + b] == Tag(hash) {
          var i := Mask(g + b, cap);
          if slots[i].Some? && slots[i].value.hash == hash && slots[i].value.key == key {
            return Some(i);
          }
        }
        b := b + 1;
      }
      return None;
    }

    // Is there an EMPTY byte in the group, and where?
    method GroupHasEmpty(p: nat, d: nat) returns (found: bool, ghost b: nat)
      requires TableOk(ctrl, slots, cap) && p < cap && d + GROUP <= cap
      ensures found ==> b < GROUP && ctrl[At(p, d + b, cap)] == EMPTY
      ensures !found ==> forall x :: d <= x < d + GROUP ==> ctrl[At(p, x, cap)] != EMPTY
    {
      hide Mask, PowerOfTwo, Tag;
      var g := At(p, d, cap);
      var c := 0;
      found := false;
      b := 0;
      while c < GROUP
        invariant 0 <= c <= GROUP
        invariant found ==> b < GROUP && ctrl[At(p, d + b, cap)] == EMPTY
        invariant !found ==> forall x :: d <= x < d + c ==> ctrl[At(p, x, cap)] != EMPTY
      {
        GroupByte(ctrl, cap, p, d, c);
        if !IsFull(ctrl[g + c]) && ctrl[g + c] == EMPTY {
          found, b := true, c;
        }
        c := c + 1;
      }
    }

    /** find_slot: the slot that holds the key, if any slot does. */
    method FindSlot(hash: nat, key: K) returns (r: Option<nat>)
      requires TableOk(ctrl, slots, cap)
      ensures r.Some? ==> HoldsAt(slots, r.value, hash, key)
      ensures r.None? ==> forall i :: 0 <= i < cap ==> !HoldsAt(slots, i, hash, key)
    {
      hide Home, Mask, PowerOfTwo, Tag;
      var p := Home(hash, cap);
      var pos, step := p, 0;
      while true
        invariant step <= cap && step % GROUP == 0
        invariant pos == if step < cap then At(p, step, cap) else p
        invariant forall i :: 0 <= i < cap && Dist(p, i, cap) < step ==> !HoldsAt(slots, i, hash, key)
        decreases cap + GROUP - step
      {
        var d := if step < cap then step else 0;
        r := ProbeGroup(hash, key, d);
        if r.Some? {
          return r;
        }
        var empty, b := GroupHasEmpty(p, d);
        if empty {
          if step < cap {
            EmptyEndsProbe(ctrl, slots, cap, hash, key, d, At(p, d + b, cap));
          }
          return None;
        }
        step := step + GROUP;
        if step > cap {
          return None;
        }
        NextGroup(p, d, cap);
        pos := Mask(pos + GROUP, cap);
      }
    }

    // The first free slot of one group.
    method FreeInGroup(p: nat, d: nat) returns (r: Option<nat>)
      requires TableOk(ctrl, slots, cap) && p < cap && d + GROUP <= cap
      ensures r.Some? ==> r.value < cap && !IsFull(ctrl[r.value]) && d <= Dist(p, r.value, cap) < d + GROUP
      ensures r.None? ==> forall i :: 0 <= i < cap && d <= Dist(p, i, cap) < d + GROUP ==> IsFull(ctrl[i])
    {
      hide Mask, PowerOfTwo, Tag;
      var g := At(p, d, cap);
      var b := 0;
      while b < GROUP
        invariant 0 <= b <= GROUP
        invariant forall i :: 0 <= i < cap && d <= Dist(p, i, cap) < d + b ==> IsFull(ctrl[i])
      {
        GroupByte(ctrl, cap, p, d, b);
        if !IsFull(ctrl[g + b]) {
          return Some(Mask(g + b, cap));
        }
        b := b + 1;
      }
      return None;
    }

    /** find_free: the first free slot on the probe path; there is one unless every slot is full. */
    method FindFree(hash: nat) returns (r: Option<nat>)
      requires TableOk(ctrl, slots, cap)
      ensures r.Some? ==> r.value < cap && !IsFull(ctrl[r.value]) && PathFull(ctrl, cap, Home(hash, cap), r.value)
      ensures r.None? ==> forall i :: 0 <= i < cap ==> IsFull(ctrl[i])
    {
      hide Home, Mask, PowerOfTwo, Tag;
      var p := Home(hash, cap);
      var pos, step := p, 0;
      while true
        invariant step <= cap && step % GROUP == 0
        invariant pos == if step < cap then At(p, step, cap) else p
        invariant forall i :: 0 <= i < cap && Dist(p, i, cap) < step ==> IsFull(ctrl[i])
        decreases cap + GROUP - step
      {
        var d := if step < cap then step else 0;
        r := FreeInGroup(p, d);
        if r.Some? {
          FreeIsFirst(ctrl, cap, p, d, step, r.value);
          return r;
        }
        step := step + GROUP;
        if step > cap {
          return None;
        }
        NextGroup(p, d, cap);
        pos := Mask(pos + GROUP, cap);
      }
    }

    /** slot_drop: take one entry out, leaving a tombstone and settling every counter. */
    method SlotDrop(i: nat)
      requires Valid() && i < cap && slots[i].Some?
      modifies this
      ensures Valid() && slots == old(slots)[i := None] && ctrl == CtrlSet(old(ctrl), cap, i, DELETED)
      ensures cap == old(cap) && hand == old(hand) && used == old(used) - 1 && tomb == old(tomb) + 1
      ensures Map() == old(Map()) - {(old(slots)[i].value.hash, old(slots)[i].value.key)}
    {
      hide TableOk, Contents, Sum;
      TableShape(ctrl, slots, cap);
      var e := slots[i].value;
      DropOk(ctrl, slots, cap, i);
      CountersUpdate(slots, i, None);
      TombUpdate(ctrl, slots, cap, i, DELETED);
      bytes := bytes - e.size;
      if e.pinned {
        pinnedEntries := pinnedEntries - 1;
        pinnedBytes := pinnedBytes - e.size;
      }
      slots := slots[i := None];
      ctrl := CtrlSet(ctrl, cap, i, DELETED);
      used := used - 1;
      tomb := tomb + 1;
    }

    /**
     shard_evict_one: the CLOCK sweep, at most twice around.  It fails exactly when every entry
     is pinned and unexpired.  The victim is expired or unpinned, and an unexpired victim that
     had its reference bit set at the start is taken only when nothing was expired and every
     unpinned entry had its bit set.
     */
    method EvictOne(now: nat) returns (ok: bool, ghost victim: nat)
      requires Valid()
      modifies this
      ensures Valid() && cap == old(cap)
      ensures !ok <==> forall i :: 0 <= i < cap && old(slots)[i].Some? ==> !Evictable(old(slots)[i].value, now)
      ensures !ok ==> Map() == old(Map()) && used == old(used)
      ensures ok ==> used == old(used) - 1 && victim < cap && old(slots)[victim].Some?
      ensures ok ==> Map() == old(Map()) - {(old(slots)[victim].value.hash, old(slots)[victim].value.key)}
      ensures ok ==> GoodVictim(old(slots), victim, now)
    {
      hide TableOk, Contents, Sum, Dist, At, Mask;
      ghost var s0, h0 := slots, hand;
      TableShape(ctrl, slots, cap);
      var scanned := 0;
      SweepStart(s0, h0, cap, now);
      while scanned < 2 * cap
        invariant 0 <= scanned <= 2 * cap && cap == old(cap)
        invariant hand < cap && hand == HandAt(h0, scanned, cap)
        invariant Swept(s0, slots, h0, cap, scanned, now)
        invariant ctrl == old(ctrl) && used == old(used) && tomb == old(tomb) && bytes == old(bytes)
        invariant pinnedEntries == old(pinnedEntries) && pinnedBytes == old(pinnedBytes)
      {
        var i := hand;
        SweepAt(s0, slots, h0, cap, scanned, now, i);
        hand := Mask(hand + 1, cap);
        HandStep(h0, scanned, cap);
        scanned := scanned + 1;
        AgreesAt(ctrl, s0, cap, i);
        if !IsFull(ctrl[i]) || slots[i].None? {
          continue;
        }
        var e := slots[i].value;
        if e.Expired(now) {
          SweepFrame(ctrl, s0, slots, cap, h0, scanned - 1, now);
          SlotDrop(i);
          return true, i;
        }
        if e.pinned {
          continue;
        }
        if e.ref {
          slots := slots[i := Some(e.(ref := false))];
          continue;
        }
        SweepFrame(ctrl, s0, slots, cap, h0, scanned - 1, now);
        SlotDrop(i);
        return true, i;
      }
      SweepFrame(ctrl, s0, slots, cap, h0, scanned, now);
      SweepFailed(s0, slots, h0, cap, now);
      return false, 0;
    }

    /** A lookup: the entry exactly when the map has the key; a hit sets the reference bit. */
    method Lookup(hash: nat, key: K) returns (r: Option<Entry<K>>)
      requires Valid()
      modifies this`slots
      ensures Valid() && Map() == old(Map())
      ensures r.Some? <==> (hash, key) in Map()
      ensures r.Some? ==> r.value.Content() == Map()[(hash, key)] && r.value.ref
    {
      hide TableOk, Contents, Sum, KeySet;
      TableShape(ctrl, slots, cap);
      var i := FindSlot(hash, key);
      LookupResult(ctrl, slots, cap, hash, key, i);
      if i.None? {
        return None;
      }
      ghost var s0 := slots;
      var e := slots[i.value].value.(ref := true);
      slots := slots[i.value := Some(e)];
      assert SameContent(s0, slots);
      RefBitsOk(ctrl, s0, slots, cap);
      CountersSame(s0, slots);
      return Some(e);
    }

    /** elpis_cache_remove: takes out the key if it is there, and nothing else. */
    method Remove(hash: nat, key: K) returns (found: bool)
      requires Valid()
      modifies this
      ensures Valid() && Map() == old(Map()) - {(hash, key)}
      ensures found <==> (hash, key) in old(Map())
    {
      hide TableOk, Contents, Sum, KeySet;
      TableShape(ctrl, slots, cap);
      var i := FindSlot(hash, key);
      LookupResult(ctrl, slots, cap, hash, key, i);
      if i.Some? {
        SlotDrop(i.value);
      }
      return i.Some?;
    }

    /** elpis_cache_flush: empties the shard and clears the tombstones. */
    method Flush()
      requires Valid()
      modifies this
      ensures Valid() && Map() == map[] && used == 0 && tomb == 0 && bytes == 0 && cap == old(cap)
    {
      hide TableOk, Contents, Sum;
      TableShape(ctrl, slots, cap);
      var j := 0;
      while j < cap
        invariant Valid() && 0 <= j <= cap == old(cap) == |slots|
        invariant forall i :: 0 <= i < j ==> slots[i].None?
      {
        AgreesAt(ctrl, slots, cap, j);
        if IsFull(ctrl[j]) && slots[j].Some? {
          SlotDrop(j);
        }
        j := j + 1;
      }
      tomb := 0;
      ctrl := seq(cap + GROUP, _ => EMPTY);
      TableShape(old(ctrl), old(slots), cap);
      EmptyOk(ctrl, slots, cap);
      NoEntries(slots);
      NoTombs(ctrl[..cap]);
    }

    /** elpis_cache_expire, on one shard: `per` steps of the hand, dropping exactly the expired entries it passes. */
    method Expire(now: nat, per: nat) returns (n: nat)
      requires Valid()
      modifies this
      ensures Valid() && Submap(Map(), old(Map())) && used + n == old(used)
      ensures forall hk :: hk in old(Map()) && hk !in Map() ==> old(Map())[hk].Expired(now)
      ensures cap == old(cap) && Expunged(old(slots), slots, old(hand), cap, per, now)
    {
      hide TableOk, Contents, Sum, KeySet, Mask, Expunged;
      n := 0;
      var k := 0;
      TableShape(ctrl, slots, cap);
      ExpungedNone(slots, hand, cap, now);
      while k < per
        invariant k <= per && cap == old(cap) && hand < cap && (k < cap ==> Dist(old(hand), hand, cap) == k)
        invariant Expunged(old(slots), slots, old(hand), cap, k, now)
        invariant Valid() && Submap(Map(), old(Map())) && used + n == old(used)
        invariant forall hk :: hk in old(Map()) && hk !in Map() ==> old(Map())[hk].Expired(now)
      {
        TableShape(ctrl, slots, cap);
        var j := hand;
        AgreesAt(ctrl, slots, cap, j);
        MaskOnce(hand + 1, cap);
        hand := Mask(hand + 1, cap);
        ExpungedMore(old(slots), slots, old(hand), cap, k, now, j);
        if IsFull(ctrl[j]) && slots[j].Some? && slots[j].value.Expired(now) {
          EntryInMap(ctrl, slots, cap, j);
          SlotDrop(j);
          n := n + 1;
        }
        k := k + 1;
      }
    }

    // Puts an entry into the slot find_free chose.
    method Place(e: Entry<K>, i: nat)
      requires TableOk(ctrl, slots, cap) && i < cap && !IsFull(ctrl[i]) && PathFull(ctrl, cap, Home(e.hash, cap), i)
      requires (e.hash, e.key) !in Map()
      modifies this`ctrl, this`slots
      ensures TableOk(ctrl, slots, cap) && Map() == old(Map())[(e.hash, e.key) := e.Content()]
      ensures i < |old(slots)| && old(slots)[i].None? && slots == old(slots)[i := Some(e)]
      ensures |old(ctrl)| == cap + GROUP && cap >= GROUP && ctrl == CtrlSet(old(ctrl), cap, i, Tag(e.hash))
    {
      hide TableOk, Contents, KeySet, Home, Dist;
      TableShape(ctrl, slots, cap);
      AgreesAt(ctrl, slots, cap, i);
      FullIsNotEmpty(ctrl, cap, Home(e.hash, cap), i);
      NotHeld(slots, e.hash, e.key);
      PlaceOk(ctrl, slots, cap, i, e);
      slots := slots[i := Some(e)];
      ctrl := CtrlSet(ctrl, cap, i, Tag(e.hash));
    }

    /** shard_rehash: every entry moves to a fresh table; the map and the byte counts stay. */
    method Rehash(newCap: nat)
      requires Valid() && CapOk(newCap) && used < newCap
      modifies this
      ensures TableOk(ctrl, slots, cap) && cap == newCap && hand == 0 && tomb == 0 && used == old(used)
      ensures Map() == old(Map()) && bytes == old(bytes)
      ensures pinnedEntries == old(pinnedEntries) && pinnedBytes == old(pinnedBytes)
      ensures used == Sum(Live<K>, slots) && tomb == Sum(Tomb, ctrl[..cap])
      ensures bytes == Sum(Bytes<K>, slots)
      ensures pinnedEntries == Sum(PinOne<K>, slots) && pinnedBytes == Sum(PinBytes<K>, slots)
    {
      hide TableOk, Contents, Sum, KeySet, PowerOfTwo;
      ghost var c0 := ctrl;
      var os, oc, ocap := slots, ctrl, cap;
      TableShape(oc, os, ocap);
      ctrl := seq(newCap + GROUP, _ => EMPTY);
      slots := seq(newCap, _ => None);
      cap, used, tomb, hand := newCap, 0, 0, 0;
      EmptyOk(ctrl, slots, cap);
      NoEntries(slots);
      NoEntries(os[..0]);
      EmptyContents(os[..0]);
      var i := 0;
      while i < ocap
        invariant 0 <= i <= ocap && cap == newCap && tomb == 0 && hand == 0
        invariant TableOk(ctrl, slots, cap) && |ctrl| == cap + GROUP && Contents(slots) == Contents(os[..i])
        invariant used == Sum(Live<K>, slots) && SameSums(slots, os[..i])
        invariant forall j :: 0 <= j < |ctrl| ==> ctrl[j] != DELETED
        invariant bytes == old(bytes) && pinnedEntries == old(pinnedEntries) && pinnedBytes == old(pinnedBytes)
      {
        AgreesAt(oc, os, ocap, i);
        PrefixStep(oc, os, ocap, i);
        if IsFull(oc[i]) && os[i].Some? {
          var e := os[i].value;
          LivePrefix(os, i);
          RoomLeft(ctrl, slots, cap);
          var slot := FindFree(e.hash);
          ghost var s0 := slots;
          Place(e, slot.value);
          CountersUpdate(s0, slot.value, Some(e));
          used := used + 1;
        }
        i := i + 1;
      }
      assert os[..ocap] == os;
      NoTombs(ctrl[..cap]);
    }

    // Evicts until `size` more bytes fit in the budget, or nothing evictable is left.
    method MakeRoom(size: nat, now: nat)
      requires Valid()
      modifies this
      ensures Valid() && Submap(Map(), old(Map()))
      ensures forall hk :: hk in old(Map()) && hk !in Map() ==> Evictable(old(Map())[hk], now)
      ensures bytes + size > bytesMax ==> forall hk :: hk in Map() ==> !Evictable(Map()[hk], now)
      ensures old(bytes) + size <= bytesMax ==> Map() == old(Map()) && bytes == old(bytes)
    {
      hide TableOk, Contents, Sum, KeySet;
      while bytes + size > bytesMax
        invariant Valid() && Submap(Map(), old(Map()))
        invariant forall hk :: hk in old(Map()) && hk !in Map() ==> Evictable(old(Map())[hk], now)
        invariant old(bytes) + size <= bytesMax ==> Map() == old(Map()) && bytes == old(bytes)
        decreases used
      {
        ghost var s0, c0 := slots, ctrl;
        TableShape(ctrl, slots, cap);
        var ok, v := EvictOne(now);
        if !ok {
          NothingEvictable(c0, s0, cap, now);
          break;
        }
        EntryInMap(c0, s0, cap, v);
      }
    }

    // Rehashes when the next entry would push the table past seven eighths.
    method Grow()
      requires Valid()
      modifies this
      ensures Valid() && Map() == old(Map()) && bytes == old(bytes)
      ensures 8 * (used + tomb + 1) <= 7 * cap
    {
      hide TableOk, Contents, Sum, KeySet, PowerOfTwo;
      TableShape(ctrl, slots, cap);
      if 8 * (used + tomb + 1) > 7 * cap {
        var newCap := if 2 * (used + 1) > cap then 2 * cap else cap;
        if newCap < MIN_CAP {
          newCap := MIN_CAP;
        }
        DoubleCapOk(cap);
        Rehash(newCap);
      }
    }

    /**
     elpis_cache_insert.  A key already present is replaced.  A new key is stored after
     evicting only what may be evicted, and only when the budget asks for it; an unpinned
     entry that gets in leaves the shard within its budget, and the only reason to refuse
     one is that nothing evictable is left.  Lack of a slot is never a reason.
     */
    method Insert(e: Entry<K>, now: nat) returns (ok: bool)
      requires Valid()
      modifies this
      ensures Valid()
      ensures (e.hash, e.key) in old(Map()) ==> ok && Map() == old(Map())[(e.hash, e.key) := e.Content()]
      ensures ok ==> (e.hash, e.key) in Map() && Map()[(e.hash, e.key)] == e.Content()
      ensures ok ==> Submap(Map() - {(e.hash, e.key)}, old(Map()))
      ensures !ok ==> Submap(Map(), old(Map()))
      ensures forall hk :: hk in old(Map()) && hk !in Map() ==> Evictable(old(Map())[hk], now)
      ensures ok && (e.hash, e.key) !in old(Map()) && !e.pinned ==> bytes <= bytesMax
      ensures !ok ==> !e.pinned && bytes + e.size > bytesMax && forall hk :: hk in Map() ==> !Evictable(Map()[hk], now)
      ensures old(bytes) + e.size <= bytesMax ==> ok && Map() == old(Map())[(e.hash, e.key) := e.Content()]
    {
      hide TableOk, Contents, Sum, KeySet;
      TableShape(ctrl, slots, cap);
      var found := FindSlot(e.hash, e.key);
      LookupResult(ctrl, slots, cap, e.hash, e.key, found);
      if found.Some? {
        Replace(found.value, e);
        return true;
      }
      MakeRoom(e.size, now);
      if bytes + e.size > bytesMax && !e.pinned {
        return false;
      }
      Grow();
      Store(e);
      return true;
    }

    method Replace(i: nat, e: Entry<K>)
      requires Valid() && i < cap && HoldsAt(slots, i, e.hash, e.key)
      modifies this
      ensures Valid() && Map() == old(Map())[(e.hash, e.key) := e.Content()]
    {
      hide TableOk, Contents, Sum, KeySet;
      TableShape(ctrl, slots, cap);
      var old_e := slots[i].value;
      CountersUpdate(slots, i, Some(e));
      ReplaceOk(ctrl, slots, cap, i, e);
      bytes := bytes - old_e.size;
      if old_e.pinned {
        pinnedEntries := pinnedEntries - 1;
        pinnedBytes := pinnedBytes - old_e.size;
      }
      slots := slots[i := Some(e)];
      bytes := bytes + e.size;
      if e.pinned {
        pinnedEntries := pinnedEntries + 1;
        pinnedBytes := pinnedBytes + e.size;
      }
    }

    // Stores a new key in a table that has room for it.
    method Store(e: Entry<K>)
      requires Valid() && (e.hash, e.key) !in Map() && 8 * (used + tomb + 1) <= 7 * cap
      modifies this
      ensures Valid() && Map() == old(Map())[(e.hash, e.key) := e.Content()] && bytes == old(bytes) + e.size
    {
      hide TableOk, Contents, Sum, KeySet, PowerOfTwo, Tag;
      TableShape(ctrl, slots, cap);
      RoomLeft(ctrl, slots, cap);
      var slot := FindFree(e.hash);
      var i := slot.value;
      ghost var s0, c0 := slots, ctrl;
      TagIsFull(e.hash);
      TombUpdate(c0, s0, cap, i, Tag(e.hash));
      CountersUpdate(s0, i, Some(e));
      if ctrl[i] == DELETED && tomb > 0 {
        tomb := tomb - 1;
      }
      Place(e, i);
      used := used + 1;
      bytes := bytes + e.size;
      if e.pinned {
        pinnedEntries := pinnedEntries + 1;
        pinnedBytes := pinnedBytes + e.size;
      }
    }
  }

  // ---------------------------------------------------------------------------
  // Probing
  // ---------------------------------------------------------------------------

  lemma {:induction false} MinCapOk()
    ensures CapOk(MIN_CAP)
  {
    assert PowerOfTwo(1);
    assert PowerOfTwo(2);
    assert PowerOfTwo(4);
    assert PowerOfTwo(8);
    assert PowerOfTwo(16);
    assert PowerOfTwo(32);
  }

  lemma {:induction false} NoEntries<K>(slots: seq<Option<Entry<K>>>)
    requires forall i :: 0 <= i < |slots| ==> slots[i].None?
    ensures Sum(Live<K>, slots) == 0 && Sum(Bytes<K>, slots) == 0
    ensures Sum(PinOne<K>, slots) == 0 && Sum(PinBytes<K>, slots) == 0
  {
    SumConst(Live<K>, slots, 0);
    SumConst(Bytes<K>, slots, 0);
    SumConst(PinOne<K>, slots, 0);
    SumConst(PinBytes<K>, slots, 0);
  }

  lemma {:induction false} NoTombs(ctrl: seq<nat>)
    requires forall i :: 0 <= i < |ctrl| ==> ctrl[i] != DELETED
    ensures Sum(Tomb, ctrl) == 0
  {
    SumConst(Tomb, ctrl, 0);
  }

  // An EMPTY byte ends the probe: the key cannot be stored any further on.
  lemma {:induction false} EmptyEndsProbe<K>(ctrl: seq<nat>, slots: seq<Option<Entry<K>>>, cap: nat, h: nat, k: K,
                                             d: nat, e: nat)
    requires TableOk(ctrl, slots, cap) && d + GROUP <= cap && d % GROUP == 0
    requires forall i :: 0 <= i < cap && Dist(Home(h, cap), i, cap) < d + GROUP ==> !HoldsAt(slots, i, h, k)
    requires e < cap && d <= Dist(Home(h, cap), e, cap) < d + GROUP && ctrl[e] == EMPTY
    ensures forall i :: 0 <= i < cap ==> !HoldsAt(slots, i, h, k)
  {
    hide Home, PowerOfTwo, Tag, Dist;
    var p := Home(h, cap);
    forall i | 0 <= i < cap
      ensures !HoldsAt(slots, i, h, k)
    {
      assert slots[i].Some? ==> PathOk(ctrl, cap, Home(slots[i].value.hash, cap), i);
      assert Dist(p, i, cap) >= d + GROUP ==> Dist(p, e, cap) / GROUP < Dist(p, i, cap) / GROUP;
    }
  }

  lemma {:induction false} FreeIsFirst(ctrl: seq<nat>, cap: nat, p: nat, d: nat, step: nat, i: nat)
    requires |ctrl| >= cap && p < cap && i < cap && step <= cap && step % GROUP == 0
    requires d == (if step < cap then step else 0)
    requires forall j :: 0 <= j < cap && Dist(p, j, cap) < step ==> IsFull(ctrl[j])
    requires d <= Dist(p, i, cap) < d + GROUP
    ensures PathFull(ctrl, cap, p, i)
  {
    forall j | 0 <= j < cap && Dist(p, j, cap) / GROUP < Dist(p, i, cap) / GROUP
      ensures IsFull(ctrl[j])
    {
      assert Dist(p, i, cap) / GROUP == d / GROUP;
    }
  }

  // ---------------------------------------------------------------------------
  // Counters and the sweep
  // ---------------------------------------------------------------------------

  lemma {:induction false} CountersUpdate<K>(slots: seq<Option<Entry<K>>>, i: nat, x: Option<Entry<K>>)
    requires i < |slots|
    ensures Sum(Live<K>, slots[i := x]) + Live(slots[i]) == Sum(Live<K>, slots) + Live(x)
    ensures Sum(Bytes<K>, slots[i := x]) + Bytes(slots[i]) == Sum(Bytes<K>, slots) + Bytes(x)
    ensures Sum(PinOne<K>, slots[i := x]) + PinOne(slots[i]) == Sum(PinOne<K>, slots) + PinOne(x)
    ensures Sum(PinBytes<K>, slots[i := x]) + PinBytes(slots[i]) == Sum(PinBytes<K>, slots) + PinBytes(x)
    ensures Live(slots[i]) <= Sum(Live<K>, slots) && Bytes(slots[i]) <= Sum(Bytes<K>, slots)
    ensures PinOne(slots[i]) <= Sum(PinOne<K>, slots) && PinBytes(slots[i]) <= Sum(PinBytes<K>, slots)
  {
    hide Sum;
    SumUpdate(Live<K>, slots, i, x);
    SumUpdate(Bytes<K>, slots, i, x);
    SumUpdate(PinOne<K>, slots, i, x);
    SumUpdate(PinBytes<K>, slots, i, x);
    SumAtLeast(Live<K>, slots, i);
    SumAtLeast(Bytes<K>, slots, i);
    SumAtLeast(PinOne<K>, slots, i);
    SumAtLeast(PinBytes<K>, slots, i);
  }

  lemma {:induction false} CountersSame<K>(s: seq<Option<Entry<K>>>, t: seq<Option<Entry<K>>>)
    requires SameContent(s, t)
    ensures Sum(Live<K>, s) == Sum(Live<K>, t) && Sum(Bytes<K>, s) == Sum(Bytes<K>, t)
    ensures Sum(PinOne<K>, s) == Sum(PinOne<K>, t) && Sum(PinBytes<K>, s) == Sum(PinBytes<K>, t)
  {
    hide Sum;
    forall i | 0 <= i < |s|
      ensures Live(s[i]) == Live(t[i]) && Bytes(s[i]) == Bytes(t[i]) && PinOne(s[i]) == PinOne(t[i])
      ensures PinBytes(s[i]) == PinBytes(t[i])
    {
      if s[i].Some? {
        assert s[i].value.Content() == t[i].value.Content();
      }
    }
    SumEqual(Live<K>, s, t);
    SumEqual(Bytes<K>, s, t);
    SumEqual(PinOne<K>, s, t);
    SumEqual(PinBytes<K>, s, t);
  }

  lemma {:induction false} TombUpdate<K>(ctrl: seq<nat>, slots: seq<Option<Entry<K>>>, cap: nat, i: nat, v: nat)
    requires TableOk(ctrl, slots, cap) && i < cap
    ensures |ctrl| == cap + GROUP && cap >= GROUP
    ensures Sum(Tomb, CtrlSet(ctrl, cap, i, v)[..cap]) + Tomb(ctrl[i]) == Sum(Tomb, ctrl[..cap]) + Tomb(v)
    ensures Tomb(ctrl[i]) <= Sum(Tomb, ctrl[..cap])
    ensures slots[i].Some? ==> Tomb(ctrl[i]) == 0
  {
    hide Sum, PowerOfTwo;
    assert CtrlSet(ctrl, cap, i, v)[..cap] == ctrl[..cap][i := v];
    SumUpdate(Tomb, ctrl[..cap], i, v);
    SumAtLeast(Tomb, ctrl[..cap], i);
    assert Agrees(ctrl[i], slots[i]);
  }

  lemma {:induction false} TableShape<K>(ctrl: seq<nat>, slots: seq<Option<Entry<K>>>, cap: nat)
    requires TableOk(ctrl, slots, cap)
    ensures |slots| == cap && |ctrl| == cap + GROUP && cap >= MIN_CAP && CapOk(cap)
  {
  }

  lemma {:induction false} AgreesAt<K>(ctrl: seq<nat>, slots: seq<Option<Entry<K>>>, cap: nat, i: nat)
    requires TableOk(ctrl, slots, cap) && i < cap
    ensures |slots| == cap && |ctrl| == cap + GROUP && (IsFull(ctrl[i]) <==> slots[i].Some?)
  {
    assert Agrees(ctrl[i], slots[i]);
  }

  /** Where the hand is after n steps, for up to two rounds. */
  ghost function HandAt(h0: nat, n: nat, cap: nat): (h: nat)
    requires h0 < cap && n <= 2 * cap
    ensures h < cap
  {
    if n < cap then At(h0, n, cap) else if n < 2 * cap then At(h0, n - cap, cap) else h0
  }

  lemma {:induction false} HandStep(h0: nat, n: nat, cap: nat)
    requires h0 < cap && n < 2 * cap && cap > 1
    ensures Mask(HandAt(h0, n, cap) + 1, cap) == HandAt(h0, n + 1, cap)
  {
    MaskOnce(HandAt(h0, n, cap) + 1, cap);
  }

  /**
   What n steps of the sweep have done to the slots s0: an entry passed once was unexpired, and
   pinned or stripped of its reference bit; one passed twice is pinned; the rest is untouched.
   */
  ghost predicate SweptAt<K>(a: Option<Entry<K>>, b: Option<Entry<K>>, d: nat, n: nat, cap: nat, now: nat) {
    if a.None? then b.None?
    else if d >= n then b == a
    else
      && !a.value.Expired(now)
      && (if a.value.pinned then b == a else a.value.ref && b == Some(a.value.Content()))
      && (d + cap < n ==> a.value.pinned)
  }

  ghost predicate Swept<K>(s0: seq<Option<Entry<K>>>, s: seq<Option<Entry<K>>>, h0: nat, cap: nat, n: nat, now: nat) {
    |s0| == |s| == cap && h0 < cap && forall j :: 0 <= j < cap ==> SweptAt(s0[j], s[j], Dist(h0, j, cap), n, cap, now)
  }

  lemma {:induction false} SweepStart<K>(s0: seq<Option<Entry<K>>>, h0: nat, cap: nat, now: nat)
    requires |s0| == cap && h0 < cap
    ensures Swept(s0, s0, h0, cap, 0, now) && HandAt(h0, 0, cap) == h0
  {
  }

  // What the sweep finds under the hand at step n.
  lemma {:induction false} SweepAt<K>(s0: seq<Option<Entry<K>>>, s: seq<Option<Entry<K>>>, h0: nat, cap: nat, n: nat,
                                      now: nat, i: nat)
    requires Swept(s0, s, h0, cap, n, now) && n < 2 * cap && i == HandAt(h0, n, cap)
    ensures SweptAt(s0[i], s[i], Dist(h0, i, cap), n, cap, now)
    ensures s0[i].None? <==> s[i].None?
    ensures Dist(h0, i, cap) == if n < cap then n else n - cap
    // Passing over the slot keeps the record, with the reference bit cleared if it was set.
    ensures s[i].None? || (!s[i].value.Expired(now) && s[i].value.pinned) ==> Swept(s0, s, h0, cap, n + 1, now)
    ensures s[i].Some? && !s[i].value.Expired(now) && !s[i].value.pinned && s[i].value.ref ==>
              Swept(s0, s[i := Some(s[i].value.(ref := false))], h0, cap, n + 1, now)
    // Taking the entry now is what the sweep promises.
    ensures s[i].Some? && (s[i].value.Expired(now) || (!s[i].value.pinned && !s[i].value.ref)) ==>
        GoodVictim(s0, i, now)
  {
    forall j | 0 <= j < cap && j != i
      ensures Dist(h0, j, cap) != Dist(h0, i, cap)
      ensures SweptAt(s0[j], s[j], Dist(h0, j, cap), n + 1, cap, now)
    {
      assert SweptAt(s0[j], s[j], Dist(h0, j, cap), n, cap, now);
    }
    if n >= cap {
      forall j | 0 <= j < cap && s0[j].Some?
        ensures !s0[j].value.Expired(now) && (s0[j].value.pinned || s0[j].value.ref)
      {
        assert SweptAt(s0[j], s[j], Dist(h0, j, cap), n, cap, now);
      }
    }
  }

  ghost predicate GoodVictim<K>(s: seq<Option<Entry<K>>>, v: nat, now: nat) {
    && v < |s| && s[v].Some? && Evictable(s[v].value, now)
    && (!s[v].value.Expired(now) && s[v].value.ref ==>
          forall i :: 0 <= i < |s| && s[i].Some? ==> !s[i].value.Expired(now) && (s[i].value.pinned || s[i].value.ref))
  }

  // The sweep changes nothing but reference bits until it drops its victim.
  lemma {:induction false} SweepFrame<K>(ctrl: seq<nat>, s0: seq<Option<Entry<K>>>, s: seq<Option<Entry<K>>>,
                                         cap: nat, h0: nat, n: nat, now: nat)
    requires TableOk(ctrl, s0, cap) && Swept(s0, s, h0, cap, n, now)
    ensures TableOk(ctrl, s, cap) && Contents(s) == Contents(s0)
    ensures Sum(Live<K>, s) == Sum(Live<K>, s0) && Sum(Bytes<K>, s) == Sum(Bytes<K>, s0)
    ensures Sum(PinOne<K>, s) == Sum(PinOne<K>, s0) && Sum(PinBytes<K>, s) == Sum(PinBytes<K>, s0)
    ensures forall i :: 0 <= i < cap && s[i].Some? ==>
              s0[i].Some? && s[i].value.hash == s0[i].value.hash && s[i].value.key == s0[i].value.key
  {
    hide TableOk, Contents, Sum, Dist;
    forall i | 0 <= i < |s0|
      ensures (s0[i].Some? <==> s[i].Some?) && (s0[i].Some? ==> s0[i].value.Content() == s[i].value.Content())
    {
      assert SweptAt(s0[i], s[i], Dist(h0, i, cap), n, cap, now);
    }
    assert SameContent(s0, s);
    RefBitsOk(ctrl, s0, s, cap);
    CountersSame(s0, s);
    forall i | 0 <= i < cap && s[i].Some?
      ensures s0[i].Some? && s[i].value.hash == s0[i].value.hash && s[i].value.key == s0[i].value.key
    {
      assert s0[i].value.Content() == s[i].value.Content();
    }
  }

  lemma {:induction false} SweepFailed<K>(s0: seq<Option<Entry<K>>>, s: seq<Option<Entry<K>>>, h0: nat, cap: nat,
                                          now: nat)
    requires Swept(s0, s, h0, cap, 2 * cap, now)
    ensures forall i :: 0 <= i < cap && s0[i].Some? ==> !Evictable(s0[i].value, now)
  {
    forall i | 0 <= i < cap && s0[i].Some?
      ensures !Evictable(s0[i].value, now)
    {
      assert SweptAt(s0[i], s[i], Dist(h0, i, cap), 2 * cap, cap, now);
    }
  }

  // ---------------------------------------------------------------------------
  // Lookup, rehash and insertion
  // ---------------------------------------------------------------------------

  lemma {:induction false} LookupResult<K>(ctrl: seq<nat>, slots: seq<Option<Entry<K>>>, cap: nat, h: nat, k: K,
                                           r: Option<nat>)
    requires TableOk(ctrl, slots, cap)
    requires r.Some? ==> HoldsAt(slots, r.value, h, k)
    requires r.None? ==> forall i :: 0 <= i < cap ==> !HoldsAt(slots, i, h, k)
    ensures r.Some? <==> (h, k) in Contents(slots)
    ensures r.Some? ==> Contents(slots)[(h, k)] == slots[r.value].value.Content()
  {
    hide Contents, KeySet, PowerOfTwo;
    if r.Some? {
      ContentsAt(slots, r.value, h, k);
    } else {
      AbsentWhen(slots, h, k);
    }
  }

  lemma {:induction false} EntryInMap<K>(ctrl: seq<nat>, slots: seq<Option<Entry<K>>>, cap: nat, i: nat)
    requires TableOk(ctrl, slots, cap) && i < |slots| && slots[i].Some?
    ensures (slots[i].value.hash, slots[i].value.key) in Contents(slots)
    ensures Contents(slots)[(slots[i].value.hash, slots[i].value.key)] == slots[i].value.Content()
  {
    ContentsAt(slots, i, slots[i].value.hash, slots[i].value.key);
  }

  lemma {:induction false} FullIsNotEmpty(ctrl: seq<nat>, cap: nat, p: nat, i: nat)
    requires |ctrl| >= cap && p < cap && i < cap && PathFull(ctrl, cap, p, i)
    ensures PathOk(ctrl, cap, p, i)
  {
  }

  lemma {:induction false} NotHeld<K>(slots: seq<Option<Entry<K>>>, h: nat, k: K)
    requires (h, k) !in Contents(slots)
    ensures forall i :: 0 <= i < |slots| ==> !HoldsAt(slots, i, h, k)
  {
    hide Contents, KeySet;
    forall i | 0 <= i < |slots|
      ensures !HoldsAt(slots, i, h, k)
    {
      if HoldsAt(slots, i, h, k) {
        PresentAt(slots, i, (h, k));
      }
    }
  }

  lemma {:induction false} EmptyContents<K>(slots: seq<Option<Entry<K>>>)
    requires |slots| == 0
    ensures Contents(slots) == map[]
  {
    assert KeySet(slots) == {};
  }

  ghost predicate SameSums<K>(s: seq<Option<Entry<K>>>, t: seq<Option<Entry<K>>>) {
    && Sum(Live<K>, s) == Sum(Live<K>, t) && Sum(Bytes<K>, s) == Sum(Bytes<K>, t)
    && Sum(PinOne<K>, s) == Sum(PinOne<K>, t) && Sum(PinBytes<K>, s) == Sum(PinBytes<K>, t)
  }

  // One slot further along the old table.
  lemma {:induction false} PrefixStep<K>(ctrl: seq<nat>, os: seq<Option<Entry<K>>>, cap: nat, i: nat)
    requires TableOk(ctrl, os, cap) && i < cap
    ensures |os| == cap
    ensures os[i].None? ==> Contents(os[..i + 1]) == Contents(os[..i]) && SameSums(os[..i + 1], os[..i])
    ensures os[i].Some? ==>
              var e := os[i].value;
              && (e.hash, e.key) !in Contents(os[..i])
              && Contents(os[..i + 1]) == Contents(os[..i])[(e.hash, e.key) := e.Content()]
    ensures Sum(Live<K>, os[..i + 1]) == Sum(Live<K>, os[..i]) + Live(os[i])
    ensures Sum(Bytes<K>, os[..i + 1]) == Sum(Bytes<K>, os[..i]) + Bytes(os[i])
    ensures Sum(PinOne<K>, os[..i + 1]) == Sum(PinOne<K>, os[..i]) + PinOne(os[i])
    ensures Sum(PinBytes<K>, os[..i + 1]) == Sum(PinBytes<K>, os[..i]) + PinBytes(os[i])
  {
    hide Contents, KeySet, PowerOfTwo;
    assert os[..i + 1][..i] == os[..i];
    SnocContents(os[..i], os[i]) by {
      hide *;
      PrefixDistinct(ctrl, os, cap, i);
    }
    assert os[..i + 1] == os[..i] + [os[i]];
  }

  lemma {:induction false} PrefixDistinct<K>(ctrl: seq<nat>, os: seq<Option<Entry<K>>>, cap: nat, i: nat)
    requires TableOk(ctrl, os, cap) && i < cap
    ensures |os| == cap && Distinct(os[..i] + [os[i]])
  {
    var t := os[..i] + [os[i]];
    forall a, b | 0 <= a < b < |t| && t[a].Some? && t[b].Some?
      ensures !Same(t[a].value, t[b].value.hash, t[b].value.key)
    {
      NeverTwice(os, a, b);
    }
  }

  lemma {:induction false} SnocContents<K>(s: seq<Option<Entry<K>>>, x: Option<Entry<K>>)
    requires Distinct(s + [x])
    ensures x.None? ==> Contents(s + [x]) == Contents(s)
    ensures x.Some? ==> (x.value.hash, x.value.key) !in Contents(s)
    ensures x.Some? ==> Contents(s + [x]) == Contents(s)[(x.value.hash, x.value.key) := x.value.Content()]
  {
    hide Contents, KeySet;
    var t, n := s + [x], |s|;
    forall a, b | 0 <= a < b < |s| && s[a].Some? && s[b].Some?
      ensures !Same(s[a].value, s[b].value.hash, s[b].value.key)
    {
      NeverTwice(t, a, b);
    }
    if x.Some? {
      forall i | 0 <= i < |s|
        ensures !HoldsAt(s, i, x.value.hash, x.value.key)
      {
        if s[i].Some? {
          NeverTwice(t, i, n);
        }
      }
      AbsentWhen(s, x.value.hash, x.value.key);
    }
    var m := if x.None? then Contents(s) else Contents(s)[(x.value.hash, x.value.key) := x.value.Content()];
    forall i | 0 <= i < |t| && t[i].Some?
      ensures (t[i].value.hash, t[i].value.key) in m && m[(t[i].value.hash, t[i].value.key)] == t[i].value.Content()
    {
      if i < n {
        ContentsAt(s, i, t[i].value.hash, t[i].value.key);
      }
    }
    forall hk | hk in m
      ensures hk in KeySet(t)
    {
      if hk in Contents(s) {
        PresentAt(t, SlotOf(s, hk), hk);
      } else {
        PresentAt(t, n, hk);
      }
    }
    ContentsIs(t, m);
  }

  lemma {:induction false} LivePrefix<K>(os: seq<Option<Entry<K>>>, i: nat)
    requires i < |os| && os[i].Some?
    ensures Sum(Live<K>, os[..i]) < Sum(Live<K>, os)
    decreases |os| - i
  {
    SumMono(os, i + 1);
    assert os[..i + 1][..i] == os[..i];
  }

  lemma {:induction false} SumMono<K>(os: seq<Option<Entry<K>>>, i: nat)
    requires i <= |os|
    ensures Sum(Live<K>, os[..i]) <= Sum(Live<K>, os)
    decreases |os| - i
  {
    if i == |os| {
      assert os[..i] == os;
    } else {
      SumMono(os, i + 1);
      assert os[..i + 1][..i] == os[..i];
    }
  }

  // With a live count below the capacity, find_free cannot come back empty-handed.
  lemma {:induction false} RoomLeft<K>(ctrl: seq<nat>, slots: seq<Option<Entry<K>>>, cap: nat)
    requires TableOk(ctrl, slots, cap) && Sum(Live<K>, slots) < cap
    ensures |ctrl| >= cap && exists i :: 0 <= i < cap && !IsFull(ctrl[i])
  {
    hide Sum, PowerOfTwo;
    FreeSlotExists(slots);
    var i :| 0 <= i < |slots| && slots[i].None?;
    AgreesAt(ctrl, slots, cap, i);
  }

  lemma {:induction false} NothingEvictable<K>(ctrl: seq<nat>, slots: seq<Option<Entry<K>>>, cap: nat, now: nat)
    requires TableOk(ctrl, slots, cap)
    requires forall i :: 0 <= i < cap && slots[i].Some? ==> !Evictable(slots[i].value, now)
    ensures forall hk :: hk in Contents(slots) ==> !Evictable(Contents(slots)[hk], now)
  {
    hide Contents, KeySet, PowerOfTwo;
    forall hk | hk in Contents(slots)
      ensures !Evictable(Contents(slots)[hk], now)
    {
      var i := SlotOf(slots, hk);
      ContentsAt(slots, i, hk.0, hk.1);
    }
  }

  lemma {:induction false} DoubleCapOk(cap: nat)
    requires CapOk(cap)
    ensures CapOk(2 * cap)
  {
  }

  // ---------------------------------------------------------------------------
  // Whole runs
  // ---------------------------------------------------------------------------

  datatype Op<K> = Put(e: Entry<K>, now: nat) | Get(hash: nat, key: K) | Del(hash: nat, key: K)
                 | Sweep(now: nat, per: nat) | Clear

  /** The value last put under a key and not removed since. */
  ghost function LastPut<K>(ops: seq<Op<K>>, hk: (nat, K)): Option<Entry<K>> {
    if |ops| == 0 then None
    else
      match ops[|ops| - 1]
      case Put(e, _) => if (e.hash, e.key) == hk then Some(e.Content()) else LastPut(ops[..|ops| - 1], hk)
      case Del(h, k) => if (h, k) == hk then None else LastPut(ops[..|ops| - 1], hk)
      case Clear => None
      case _ => LastPut(ops[..|ops| - 1], hk)
  }

  /**
   Why a key that was last put may be missing: its own insertion was refused, which happens to
   unpinned entries alone, a later insertion could evict it, or a sweep found it expired.
   */
  ghost predicate MayBeMissing<K>(ops: seq<Op<K>>, hk: (nat, K)) {
    if |ops| == 0 then true
    else
      var before := ops[..|ops| - 1];
      var v := LastPut(before, hk);
      match ops[|ops| - 1]
      case Put(e, now) =>
        if (e.hash, e.key) == hk then !e.pinned
        else MayBeMissing(before, hk) || (v.Some? && Evictable(v.value, now))
      case Sweep(now, _) => MayBeMissing(before, hk) || (v.Some? && v.value.Expired(now))
      case _ => MayBeMissing(before, hk)
  }

  /** Pinned, and never to expire. */
  predicate Lasting<K>(e: Entry<K>) {
    e.pinned && e.expiry == 0
  }

  /** Such an entry cannot go missing. */
  lemma {:induction false} PinnedStays<K>(ops: seq<Op<K>>, hk: (nat, K))
    requires LastPut(ops, hk).Some? && Lasting(LastPut(ops, hk).value)
    ensures !MayBeMissing(ops, hk)
    decreases |ops|
  {
    var before := ops[..|ops| - 1];
    match ops[|ops| - 1] {
      case Put(e, _) =>
        if (e.hash, e.key) != hk {
          PinnedStays(before, hk);
        }
      case _ => PinnedStays(before, hk);
    }
  }

  /** What the shard holds after ops: nothing but what was last put, and all of it that may not be missing. */
  ghost predicate Follows<K(!new)>(m: map<(nat, K), Entry<K>>, ops: seq<Op<K>>) {
    && (forall hk :: hk in m ==> LastPut(ops, hk) == Some(m[hk]))
    && (forall hk :: LastPut(ops, hk).Some? && hk !in m ==> MayBeMissing(ops, hk))
  }

  // One operation, judged by the maps before and after it.
  lemma {:induction false} FollowsStep<K(!new)>(m: map<(nat, K), Entry<K>>, m': map<(nat, K), Entry<K>>,
                                         ops: seq<Op<K>>, op: Op<K>)
    requires Follows(m, ops)
    requires forall hk :: hk in m' ==> LastPut(ops + [op], hk) == Some(m'[hk])
    requires forall hk :: hk in m && hk !in m' && LastPut(ops + [op], hk).Some? ==>
               || (op.Put? && (op.e.hash, op.e.key) != hk && Evictable(m[hk], op.now))
               || (op.Sweep? && m[hk].Expired(op.now))
    requires op.Put? && op.e.pinned ==> (op.e.hash, op.e.key) in m'
    ensures Follows(m', ops + [op])
  {
    var after := ops + [op];
    assert after[..|ops|] == ops;
    forall hk | LastPut(after, hk).Some? && hk !in m'
      ensures MayBeMissing(after, hk)
    {
    }
  }

  /**
   Over every run from an empty shard the table stays well formed, every counter stays
   exact, whatever the shard holds for a key is the value last put under it, and a key that was
   last put and is missing was refused, evicted or expired.
   */
  method Run<K(==, !new)>(s: Shard<K>, ops: seq<Op<K>>)
    requires s.Valid() && s.Map() == map[]
    modifies s
    ensures s.Valid() && Follows(s.Map(), ops)
    ensures forall hk :: LastPut(ops, hk).Some? && Lasting(LastPut(ops, hk).value) ==> hk in s.Map()
  {
    hide TableOk, Contents, Sum, KeySet, Follows;
    var i := 0;
    StartFollows(s.Map());
    assert ops[..0] == [];
    while i < |ops|
      invariant 0 <= i <= |ops| && s.Valid() && Follows(s.Map(), ops[..i])
    {
      assert ops[..i + 1] == ops[..i] + [ops[i]];
      Perform(s, ops[..i], ops[i]);
      i := i + 1;
    }
    assert ops[..i] == ops;
    forall hk | LastPut(ops, hk).Some? && Lasting(LastPut(ops, hk).value)
      ensures hk in s.Map()
    {
      PinnedStays(ops, hk);
      HeldUnless(s.Map(), ops, hk);
    }
  }

  lemma {:induction false} StartFollows<K(!new)>(m: map<(nat, K), Entry<K>>)
    requires m == map[]
    ensures Follows<K>(m, [])
  {
  }

  lemma {:induction false} HeldUnless<K(!new)>(m: map<(nat, K), Entry<K>>, ops: seq<Op<K>>, hk: (nat, K))
    requires Follows(m, ops) && LastPut(ops, hk).Some? && !MayBeMissing(ops, hk)
    ensures hk in m
  {
  }

  // One operation of a run.
  method Perform<K(==, !new)>(s: Shard<K>, ghost ops: seq<Op<K>>, op: Op<K>)
    requires s.Valid() && Follows(s.Map(), ops)
    modifies s
    ensures s.Valid() && Follows(s.Map(), ops + [op])
  {
    hide TableOk, Contents, Sum, KeySet;
    ghost var m := s.Map();
    assert (ops + [op])[..|ops|] == ops;
    match op {
      case Put(e, now) => var _ := s.Insert(e, now);
      case Get(h, k) => var _ := s.Lookup(h, k);
      case Del(h, k) => var _ := s.Remove(h, k);
      case Sweep(now, per) => var _ := s.Expire(now, per);
      case Clear => s.Flush();
    }
    FollowsStep(m, s.Map(), ops, op);
  }
}
