/**
 The layout of one cache shard (src/cache/cache.c): control bytes with a mirrored tail,
 a slot per control byte, and probing in unaligned groups of sixteen.  This module says
 what a well-formed table is and proves that placing, clearing and re-tagging a slot keep
 it well formed.
 */
module SwissTable {
  import opened Words

  /** A cached object: its header and its key; the reference bit is the CLOCK bit. */
  datatype Entry<K> = Entry(hash: nat, key: K, size: nat, expiry: nat, pinned: bool, ref: bool, payload: nat) {
    /** The entry without its reference bit, which readers and the sweep change freely. */
    function Content(): Entry<K> {
      this.(ref := false)
    }

    predicate Expired(now: nat) {
      expiry != 0 && expiry <= now
    }
  }

  const EMPTY: nat := 0x80
  const DELETED: nat := 0xFE
  const GROUP: nat := 16
  const MIN_CAP: nat := 64

  predicate IsFull(c: nat) {
    c < 0x80
  }

  /** The low seven bits of a hash are the tag; the rest pick where probing starts. */
  function Tag(h: nat): nat {
    h % 128
  }

  function Home(h: nat, cap: nat): (p: nat)
    requires cap > 0
    ensures p < cap
  {
    (h / 128) % cap
  }

  /** x & (cap - 1) for a capacity that is a power of two. */
  function Mask(x: nat, cap: nat): nat
    requires cap > 0
  {
    x % cap
  }

  ghost predicate PowerOfTwo(n: nat) {
    n == 1 || (n > 1 && n % 2 == 0 && PowerOfTwo(n / 2))
  }

  lemma {:induction false} MaskOnce(x: nat, cap: nat)
    requires 0 < cap && x < 2 * cap
    ensures Mask(x, cap) == if x < cap then x else x - cap
  {
    if x >= cap {
      assert x == 1 * cap + (x - cap);
    }
  }

  /** How far slot j lies from p, walking up and around. */
  function Dist(p: nat, j: nat, cap: nat): (d: nat)
    requires p < cap && j < cap
    ensures d < cap
  {
    if j >= p then j - p else j + cap - p
  }

  /** The slot at distance d from p. */
  function At(p: nat, d: nat, cap: nat): (j: nat)
    requires p < cap && d < cap
    ensures j < cap && Dist(p, j, cap) == d
  {
    if p + d < cap then p + d else p + d - cap
  }

  // ---------------------------------------------------------------------------
  // Well-formed tables
  // ---------------------------------------------------------------------------

  ghost predicate CapOk(cap: nat) {
    cap >= MIN_CAP && cap % GROUP == 0 && PowerOfTwo(cap)
  }

  ghost predicate Mirrored(ctrl: seq<nat>, cap: nat) {
    |ctrl| == cap + GROUP && cap >= GROUP && forall i :: 0 <= i < GROUP ==> ctrl[cap + i] == ctrl[i]
  }

  /** Control byte and slot agree: full bytes carry the tag of the entry in the slot. */
  ghost predicate Agrees<K>(c: nat, s: Option<Entry<K>>) {
    match s
    case Some(e) => c == Tag(e.hash)
    case None => c == EMPTY || c == DELETED
  }

  /** No group wholly before the group of slot i, on the probe path from p, has an EMPTY byte. */
  ghost predicate PathOk(ctrl: seq<nat>, cap: nat, p: nat, i: nat)
    requires |ctrl| >= cap && p < cap && i < cap
  {
    forall j :: 0 <= j < cap && Dist(p, j, cap) / GROUP < Dist(p, i, cap) / GROUP ==> ctrl[j] != EMPTY
  }

  ghost predicate Same<K>(x: Entry<K>, h: nat, k: K) {
    x.hash == h && x.key == k
  }

  ghost predicate Distinct<K>(slots: seq<Option<Entry<K>>>) {
    forall i, j :: 0 <= i < j < |slots| && slots[i].Some? && slots[j].Some? ==>
      !Same(slots[i].value, slots[j].value.hash, slots[j].value.key)
  }

  ghost predicate TableOk<K>(ctrl: seq<nat>, slots: seq<Option<Entry<K>>>, cap: nat) {
    && CapOk(cap) && |slots| == cap && Mirrored(ctrl, cap)
    && (forall i :: 0 <= i < cap ==> Agrees(ctrl[i], slots[i]))
    && (forall i :: 0 <= i < cap && slots[i].Some? ==> PathOk(ctrl, cap, Home(slots[i].value.hash, cap), i))
    && Distinct(slots)
  }

  /** ctrl_set: write a control byte and its mirror. */
  function CtrlSet(ctrl: seq<nat>, cap: nat, i: nat, v: nat): (r: seq<nat>)
    requires |ctrl| == cap + GROUP && i < cap && cap >= GROUP
    ensures |r| == |ctrl|
    ensures forall j :: 0 <= j < cap ==> r[j] == if j == i then v else ctrl[j]
    ensures Mirrored(ctrl, cap) ==> Mirrored(r, cap)
  {
    var a := ctrl[i := v];
    if i < GROUP then a[cap + i := v] else a
  }

  /** A group read that runs past the end sees the first bytes again. */
  lemma {:induction false} GroupByte(ctrl: seq<nat>, cap: nat, p: nat, d: nat, b: nat)
    requires Mirrored(ctrl, cap) && p < cap && d < cap && b < GROUP && d + b < cap
    ensures ctrl[At(p, d, cap) + b] == ctrl[At(p, d + b, cap)]
    ensures Mask(At(p, d, cap) + b, cap) == At(p, d + b, cap)
  {
    MaskOnce(At(p, d, cap) + b, cap);
  }

  /** Stepping one group on moves the distance by sixteen. */
  lemma {:induction false} NextGroup(p: nat, d: nat, cap: nat)
    requires p < cap && d + GROUP <= cap && GROUP <= cap
    ensures d < cap
    ensures Mask(At(p, d, cap) + GROUP, cap) == if d + GROUP < cap then At(p, d + GROUP, cap) else p
  {
    MaskOnce(At(p, d, cap) + GROUP, cap);
  }

  // ---------------------------------------------------------------------------
  // The abstract map
  // ---------------------------------------------------------------------------

  ghost predicate HoldsAt<K>(slots: seq<Option<Entry<K>>>, i: nat, h: nat, k: K) {
    i < |slots| && slots[i].Some? && Same(slots[i].value, h, k)
  }

  /** The keys present, with the hash they were stored under. */
  ghost function KeySet<K>(slots: seq<Option<Entry<K>>>): set<(nat, K)> {
    set i | 0 <= i < |slots| && slots[i].Some? :: (slots[i].value.hash, slots[i].value.key)
  }

  ghost function SlotOf<K>(slots: seq<Option<Entry<K>>>, hk: (nat, K)): (i: nat)
    requires hk in KeySet(slots)
    ensures HoldsAt(slots, i, hk.0, hk.1)
  {
    var i :| 0 <= i < |slots| && slots[i].Some? && (slots[i].value.hash, slots[i].value.key) == hk;
    i
  }

  /** What the table maps each key to. */
  ghost function Contents<K>(slots: seq<Option<Entry<K>>>): (m: map<(nat, K), Entry<K>>)
    ensures m.Keys == KeySet(slots)
  {
    map hk | hk in KeySet(slots) :: slots[SlotOf(slots, hk)].value.Content()
  }

  lemma {:induction false} ContentsAt<K>(slots: seq<Option<Entry<K>>>, i: nat, h: nat, k: K)
    requires Distinct(slots) && HoldsAt(slots, i, h, k)
    ensures (h, k) in Contents(slots) && Contents(slots)[(h, k)] == slots[i].value.Content()
  {
    assert (slots[i].value.hash, slots[i].value.key) in KeySet(slots);
    var j := SlotOf(slots, (h, k));
    assert Same(slots[i].value, slots[j].value.hash, slots[j].value.key);
  }

  lemma {:induction false} AbsentWhen<K>(slots: seq<Option<Entry<K>>>, h: nat, k: K)
    requires forall i :: 0 <= i < |slots| ==> !HoldsAt(slots, i, h, k)
    ensures (h, k) !in KeySet(slots)
  {
    if (h, k) in KeySet(slots) {
      var i := SlotOf(slots, (h, k));
      assert false;
    }
  }

  // A map that agrees with the slots entry by entry is their contents.
  lemma {:induction false} ContentsIs<K>(slots: seq<Option<Entry<K>>>, m: map<(nat, K), Entry<K>>)
    requires Distinct(slots)
    requires forall i :: 0 <= i < |slots| && slots[i].Some? ==>
               (slots[i].value.hash, slots[i].value.key) in m
               && m[(slots[i].value.hash, slots[i].value.key)] == slots[i].value.Content()
    requires forall hk :: hk in m ==> hk in KeySet(slots)
    ensures Contents(slots) == m
  {
    forall hk | hk in KeySet(slots)
      ensures hk in m && Contents(slots)[hk] == m[hk]
    {
      var i := SlotOf(slots, hk);
      ContentsAt(slots, i, hk.0, hk.1);
    }
  }

  lemma {:induction false} PresentAt<K>(slots: seq<Option<Entry<K>>>, i: nat, hk: (nat, K))
    requires HoldsAt(slots, i, hk.0, hk.1)
    ensures hk in KeySet(slots)
  {
    assert (slots[i].value.hash, slots[i].value.key) in KeySet(slots);
  }

  /** Storing an entry in a free slot, or over the entry with the same key. */
  lemma {:induction false} ContentsStore<K>(slots: seq<Option<Entry<K>>>, i: nat, e: Entry<K>)
    requires Distinct(slots) && i < |slots|
    requires forall j :: 0 <= j < |slots| && j != i ==> !HoldsAt(slots, j, e.hash, e.key)
    requires slots[i].Some? ==> Same(slots[i].value, e.hash, e.key)
    ensures Distinct(slots[i := Some(e)])
    ensures Contents(slots[i := Some(e)]) == Contents(slots)[(e.hash, e.key) := e.Content()]
  {
    hide Contents, KeySet;
    var s := slots[i := Some(e)];
    forall a, b | 0 <= a < b < |s| && s[a].Some? && s[b].Some?
      ensures !Same(s[a].value, s[b].value.hash, s[b].value.key)
    {
      assert a != i ==> !HoldsAt(slots, a, e.hash, e.key);
      assert b != i ==> !HoldsAt(slots, b, e.hash, e.key);
    }
    var m := Contents(slots)[(e.hash, e.key) := e.Content()];
    forall j | 0 <= j < |s| && s[j].Some?
      ensures (s[j].value.hash, s[j].value.key) in m && m[(s[j].value.hash, s[j].value.key)] == s[j].value.Content()
    {
      if j != i {
        assert !HoldsAt(slots, j, e.hash, e.key);
        ContentsAt(slots, j, s[j].value.hash, s[j].value.key);
      }
    }
    forall hk | hk in m
      ensures hk in KeySet(s)
    {
      if hk == (e.hash, e.key) {
        PresentAt(s, i, hk);
      } else {
        PresentAt(s, SlotOf(slots, hk), hk);
      }
    }
    ContentsIs(s, m);
  }

  /** Clearing a slot takes exactly its key out of the map. */
  lemma {:induction false} ContentsClear<K>(slots: seq<Option<Entry<K>>>, i: nat)
    requires Distinct(slots) && i < |slots| && slots[i].Some?
    ensures Distinct(slots[i := None])
    ensures Contents(slots[i := None]) == Contents(slots) - {(slots[i].value.hash, slots[i].value.key)}
  {
    hide Contents, KeySet;
    var s, e := slots[i := None], slots[i].value;
    var m := Contents(slots) - {(e.hash, e.key)};
    forall j | 0 <= j < |s| && s[j].Some?
      ensures (s[j].value.hash, s[j].value.key) in m && m[(s[j].value.hash, s[j].value.key)] == s[j].value.Content()
    {
      ContentsAt(slots, j, s[j].value.hash, s[j].value.key);
      NeverTwice(slots, i, j);
    }
    forall hk | hk in m
      ensures hk in KeySet(s)
    {
      PresentAt(s, SlotOf(slots, hk), hk);
    }
    ContentsIs(s, m);
  }

  lemma {:induction false} NeverTwice<K>(slots: seq<Option<Entry<K>>>, i: nat, j: nat)
    requires Distinct(slots) && i < |slots| && j < |slots| && i != j && slots[i].Some? && slots[j].Some?
    ensures !Same(slots[i].value, slots[j].value.hash, slots[j].value.key)
  {
    assert i < j ==> !Same(slots[i].value, slots[j].value.hash, slots[j].value.key);
    assert j < i ==> !Same(slots[j].value, slots[i].value.hash, slots[i].value.key);
  }

  /** Slots that differ only in reference bits hold the same map. */
  ghost predicate SameContent<K>(s: seq<Option<Entry<K>>>, t: seq<Option<Entry<K>>>) {
    |s| == |t| && forall i :: 0 <= i < |s| ==>
      (s[i].Some? <==> t[i].Some?) && (s[i].Some? ==> s[i].value.Content() == t[i].value.Content())
  }

  lemma {:induction false} SameContents<K>(s: seq<Option<Entry<K>>>, t: seq<Option<Entry<K>>>)
    requires Distinct(s) && SameContent(s, t)
    ensures Distinct(t) && Contents(s) == Contents(t)
  {
    hide Contents, KeySet;
    forall i, j | 0 <= i < j < |t| && t[i].Some? && t[j].Some?
      ensures !Same(t[i].value, t[j].value.hash, t[j].value.key)
    {
      assert s[i].value.Content() == t[i].value.Content() && s[j].value.Content() == t[j].value.Content();
      NeverTwice(s, i, j);
    }
    forall i | 0 <= i < |t| && t[i].Some?
      ensures (t[i].value.hash, t[i].value.key) in Contents(s)
      ensures Contents(s)[(t[i].value.hash, t[i].value.key)] == t[i].value.Content()
    {
      assert s[i].value.Content() == t[i].value.Content();
      ContentsAt(s, i, t[i].value.hash, t[i].value.key);
    }
    forall hk | hk in Contents(s)
      ensures hk in KeySet(t)
    {
      var i := SlotOf(s, hk);
      assert s[i].value.Content() == t[i].value.Content();
      PresentAt(t, i, hk);
    }
    ContentsIs(t, Contents(s));
  }

  // ---------------------------------------------------------------------------
  // Steps that keep a table well formed
  // ---------------------------------------------------------------------------

  /** Filling slot i of a table whose groups before i, on the new entry's path, are all full. */
  lemma {:induction false} PlaceOk<K>(ctrl: seq<nat>, slots: seq<Option<Entry<K>>>, cap: nat, i: nat, e: Entry<K>)
    requires TableOk(ctrl, slots, cap) && i < cap && slots[i].None?
    requires PathOk(ctrl, cap, Home(e.hash, cap), i)
    requires forall j :: 0 <= j < cap ==> !HoldsAt(slots, j, e.hash, e.key)
    ensures TableOk(CtrlSet(ctrl, cap, i, Tag(e.hash)), slots[i := Some(e)], cap)
    ensures Contents(slots[i := Some(e)]) == Contents(slots)[(e.hash, e.key) := e.Content()]
  {
    hide Contents, Home, Dist, Tag, PowerOfTwo;
    var c, s := CtrlSet(ctrl, cap, i, Tag(e.hash)), slots[i := Some(e)];
    ContentsStore(slots, i, e);
    TagIsFull(e.hash);
    forall k | 0 <= k < cap && s[k].Some?
      ensures PathOk(c, cap, Home(s[k].value.hash, cap), k)
    {
      if k != i {
        assert PathOk(ctrl, cap, Home(slots[k].value.hash, cap), k);
      }
    }
  }

  lemma {:induction false} TagIsFull(h: nat)
    ensures IsFull(Tag(h)) && Tag(h) != EMPTY && Tag(h) != DELETED
  {
  }

  /** Turning a full slot into a tombstone. */
  lemma {:induction false} DropOk<K>(ctrl: seq<nat>, slots: seq<Option<Entry<K>>>, cap: nat, i: nat)
    requires TableOk(ctrl, slots, cap) && i < cap && slots[i].Some?
    ensures TableOk(CtrlSet(ctrl, cap, i, DELETED), slots[i := None], cap)
    ensures Contents(slots[i := None]) == Contents(slots) - {(slots[i].value.hash, slots[i].value.key)}
  {
    hide Contents, Home, Dist, Tag, PowerOfTwo;
    var c, s := CtrlSet(ctrl, cap, i, DELETED), slots[i := None];
    ContentsClear(slots, i);
    forall k | 0 <= k < cap && s[k].Some?
      ensures PathOk(c, cap, Home(s[k].value.hash, cap), k)
    {
      assert PathOk(ctrl, cap, Home(slots[k].value.hash, cap), k);
    }
  }

  /** Replacing the entry of a slot by one with the same key. */
  lemma {:induction false} ReplaceOk<K>(ctrl: seq<nat>, slots: seq<Option<Entry<K>>>, cap: nat, i: nat, e: Entry<K>)
    requires TableOk(ctrl, slots, cap) && HoldsAt(slots, i, e.hash, e.key)
    ensures TableOk(ctrl, slots[i := Some(e)], cap)
    ensures Contents(slots[i := Some(e)]) == Contents(slots)[(e.hash, e.key) := e.Content()]
  {
    hide Contents, Home, Dist, Tag, PowerOfTwo;
    forall j | 0 <= j < cap && j != i
      ensures !HoldsAt(slots, j, e.hash, e.key)
    {
      if slots[j].Some? {
        NeverTwice(slots, i, j);
      }
    }
    ContentsStore(slots, i, e);
    var s := slots[i := Some(e)];
    forall k | 0 <= k < cap && s[k].Some?
      ensures PathOk(ctrl, cap, Home(s[k].value.hash, cap), k)
    {
      assert PathOk(ctrl, cap, Home(slots[k].value.hash, cap), k);
    }
  }

  /** Changing reference bits. */
  lemma {:induction false} RefBitsOk<K>(ctrl: seq<nat>, s: seq<Option<Entry<K>>>, t: seq<Option<Entry<K>>>, cap: nat)
    requires TableOk(ctrl, s, cap) && SameContent(s, t)
    ensures TableOk(ctrl, t, cap) && Contents(s) == Contents(t)
  {
    hide Contents, Home, Dist, Tag, PowerOfTwo;
    SameContents(s, t);
    forall k | 0 <= k < cap
      ensures Agrees(ctrl[k], t[k])
      ensures t[k].Some? ==> PathOk(ctrl, cap, Home(t[k].value.hash, cap), k)
    {
      assert Agrees(ctrl[k], s[k]);
      if t[k].Some? {
        assert s[k].value.Content() == t[k].value.Content();
        assert PathOk(ctrl, cap, Home(s[k].value.hash, cap), k);
      }
    }
  }

  /** A table of EMPTY bytes and no entries. */
  lemma {:induction false} EmptyOk<K>(ctrl: seq<nat>, slots: seq<Option<Entry<K>>>, cap: nat)
    requires CapOk(cap) && |ctrl| == cap + GROUP && |slots| == cap
    requires forall i :: 0 <= i < cap + GROUP ==> ctrl[i] == EMPTY
    requires forall i :: 0 <= i < cap ==> slots[i] == None
    ensures TableOk(ctrl, slots, cap) && Contents(slots) == map[]
  {
    assert KeySet(slots) == {};
  }

  // ---------------------------------------------------------------------------
  // Counters
  // ---------------------------------------------------------------------------

  function Sum<T>(f: T -> nat, s: seq<T>): nat {
    if |s| == 0 then 0 else Sum(f, s[..|s| - 1]) + f(s[|s| - 1])
  }

  lemma {:induction false} SumUpdate<T>(f: T -> nat, s: seq<T>, i: nat, x: T)
    requires i < |s|
    ensures Sum(f, s[i := x]) + f(s[i]) == Sum(f, s) + f(x)
  {
    var n := |s| - 1;
    if i < n {
      assert s[i := x][..n] == s[..n][i := x];
      SumUpdate(f, s[..n], i, x);
    } else {
      assert s[i := x][..n] == s[..n];
    }
  }

  lemma {:induction false} SumEqual<T>(f: T -> nat, s: seq<T>, t: seq<T>)
    requires |s| == |t| && forall i :: 0 <= i < |s| ==> f(s[i]) == f(t[i])
    ensures Sum(f, s) == Sum(f, t)
  {
    if |s| > 0 {
      SumEqual(f, s[..|s| - 1], t[..|s| - 1]);
    }
  }

  lemma {:induction false} SumConst<T>(f: T -> nat, s: seq<T>, c: nat)
    requires forall i :: 0 <= i < |s| ==> f(s[i]) == c
    ensures Sum(f, s) == c * |s|
  {
    if |s| > 0 {
      SumConst(f, s[..|s| - 1], c);
      assert c * |s| == c * (|s| - 1) + c;
    }
  }

  lemma {:induction false} SumAtLeast<T>(f: T -> nat, s: seq<T>, i: nat)
    requires i < |s|
    ensures f(s[i]) <= Sum(f, s)
  {
    if i < |s| - 1 {
      SumAtLeast(f, s[..|s| - 1], i);
    }
  }

  function Live<K>(s: Option<Entry<K>>): nat {
    if s.Some? then 1 else 0
  }

  function Bytes<K>(s: Option<Entry<K>>): nat {
    if s.Some? then s.value.size else 0
  }

  function PinOne<K>(s: Option<Entry<K>>): nat {
    if s.Some? && s.value.pinned then 1 else 0
  }

  function PinBytes<K>(s: Option<Entry<K>>): nat {
    if s.Some? && s.value.pinned then s.value.size else 0
  }

  function Tomb(c: nat): nat {
    if c == DELETED then 1 else 0
  }

  /** A table with fewer live entries than slots has a free slot. */
  lemma {:induction false} FreeSlotExists<K>(slots: seq<Option<Entry<K>>>)
    requires Sum(Live<K>, slots) < |slots|
    ensures exists i :: 0 <= i < |slots| && slots[i].None?
  {
    if forall i :: 0 <= i < |slots| ==> slots[i].Some? {
      SumConst(Live<K>, slots, 1);
      assert false;
    }
  }
}
