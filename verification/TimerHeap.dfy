/**
 The timer heap of the event loop (src/net/loop.c): a binary heap of timers by deadline, each
 timer knowing its place in it.
 */
module TimerHeap {
  import opened Words

  const STORM: nat := 4096

  // ---------------------------------------------------------------------------
  // Heap order, on the deadlines alone
  // ---------------------------------------------------------------------------

  function Parent(j: nat): (p: nat)
    requires j > 0
    ensures p < j && (j == 2 * p + 1 || j == 2 * p + 2)
  {
    (j - 1) / 2
  }

  predicate Edge(d: seq<nat>, j: nat)
    requires 0 < j < |d|
  {
    d[Parent(j)] <= d[j]
  }

  predicate Ordered(d: seq<nat>) {
    forall j :: 0 < j < |d| ==> Edge(d, j)
  }

  /** The children of i are no earlier than the parent of i. */
  predicate Spans(d: seq<nat>, i: nat) {
    forall j :: 0 < j < |d| && 0 < i < |d| && Parent(j) == i ==> d[Parent(i)] <= d[j]
  }

  /** Only place i may be out of order, against its parent and its children. */
  predicate Broken(d: seq<nat>, i: nat) {
    Spans(d, i) && forall j :: 0 < j < |d| && j != i && Parent(j) != i ==> Edge(d, j)
  }

  /** Only place i may be out of order, against its children. */
  predicate BrokenBelow(d: seq<nat>, i: nat) {
    Spans(d, i) && forall j :: 0 < j < |d| && Parent(j) != i ==> Edge(d, j)
  }

  /** Only place i may be out of order, against its parent. */
  predicate BrokenAbove(d: seq<nat>, i: nat) {
    Spans(d, i) && forall j :: 0 < j < |d| && j != i ==> Edge(d, j)
  }

  function Swapped<T>(s: seq<T>, a: nat, b: nat): (r: seq<T>)
    requires a < |s| && b < |s|
    ensures |r| == |s| && r[a] == s[b] && r[b] == s[a]
    ensures forall i :: 0 <= i < |s| && i != a && i != b ==> r[i] == s[i]
  {
    s[a := s[b]][b := s[a]]
  }

  /** The root is the least. */
  lemma {:induction false} RootLeast(d: seq<nat>, i: nat)
    requires Ordered(d) && i < |d|
    ensures d[0] <= d[i]
    decreases i
  {
    if i > 0 {
      assert Edge(d, i);
      RootLeast(d, Parent(i));
    }
  }

  /** Moving a value up past a later parent leaves at most the new place wrong. */
  lemma {:induction false} UpStep(d: seq<nat>, i: nat)
    requires 0 < i < |d| && (Broken(d, i) || BrokenAbove(d, i)) && d[Parent(i)] > d[i]
    ensures BrokenAbove(Swapped(d, i, Parent(i)), Parent(i))
  {
    var p := Parent(i);
    var e := Swapped(d, i, p);
    assert p > 0 ==> Edge(d, p);
    forall j | 0 < j < |d| && j != p
      ensures Edge(e, j)
    {
      if j != i && Parent(j) != i {
        assert Edge(d, j);
      }
    }
    forall j | 0 < j < |d| && 0 < p && Parent(j) == p
      ensures e[Parent(p)] <= e[j]
    {
      if j != i {
        assert Edge(d, j);
      }
    }
  }

  lemma {:induction false} UpDone(d: seq<nat>, i: nat, i0: nat)
    requires i < |d| && i0 < |d| && (i == 0 || d[Parent(i)] <= d[i])
    requires (i == i0 && Broken(d, i)) || BrokenAbove(d, i)
    ensures BrokenBelow(d, i0)
  {
    if BrokenAbove(d, i) {
      assert forall j :: 0 < j < |d| ==> Edge(d, j);
      forall j | 0 < j < |d| && 0 < i0 && Parent(j) == i0
        ensures d[Parent(i0)] <= d[j]
      {
        assert Edge(d, j) && Edge(d, i0);
      }
    }
  }

  /** Moving the earliest child up leaves at most its old place wrong. */
  lemma {:induction false} DownStep(d: seq<nat>, i: nat, m: nat)
    requires i < |d| && 0 < m < |d| && Parent(m) == i && BrokenBelow(d, i) && d[m] < d[i]
    requires forall j :: 0 < j < |d| && Parent(j) == i ==> d[m] <= d[j]
    ensures BrokenBelow(Swapped(d, i, m), m)
  {
    var e := Swapped(d, i, m);
    forall j | 0 < j < |d| && Parent(j) != m
      ensures Edge(e, j)
    {
      if j == i {
        assert i > 0 ==> d[Parent(i)] <= d[m];
      } else if Parent(j) != i {
        assert Edge(d, j);
      }
    }
    forall j | 0 < j < |d| && Parent(j) == m
      ensures e[Parent(m)] <= e[j]
    {
      assert Edge(d, j);
    }
  }

  lemma {:induction false} DownDone(d: seq<nat>, i: nat)
    requires i < |d| && BrokenBelow(d, i) && forall j :: 0 < j < |d| && Parent(j) == i ==> d[i] <= d[j]
    ensures Ordered(d)
  {
  }

  // ---------------------------------------------------------------------------
  // The heap
  // ---------------------------------------------------------------------------

  class Timer {
    var deadline: nat
    var heapIdx: nat
    var active: bool

    constructor ()
      ensures !active
    {
      deadline, heapIdx, active := 0, 0, false;
    }
  }

  ghost function Deadlines(h: seq<Timer>): (d: seq<nat>)
    reads h
    ensures |d| == |h| && forall i :: 0 <= i < |h| ==> d[i] == h[i].deadline
  {
    seq(|h|, i requires 0 <= i < |h| reads h => h[i].deadline)
  }

  class Loop {
    var heap: seq<Timer>
    /** Every timer there is. */
    ghost var all: set<Timer>

    /** The active timers are those in the heap, and each knows where it is; so none is there twice. */
    ghost predicate Placed()
      reads this, all, heap
    {
      && (forall i :: 0 <= i < |heap| ==> heap[i] in all && heap[i].heapIdx == i && heap[i].active)
      && (forall t :: t in all && t.active ==> t.heapIdx < |heap| && heap[t.heapIdx] == t)
    }

    ghost predicate Valid()
      reads this, all, heap
    {
      Placed() && Ordered(Deadlines(heap))
    }

    ghost function Pending(): set<Timer>
      reads this
    {
      set t | t in heap
    }

    constructor (timers: set<Timer>)
      requires forall t :: t in timers ==> !t.active
      ensures Valid() && all == timers && heap == []
    {
      heap, all := [], timers;
    }

    /** heap_swap. */
    method Swap(a: nat, b: nat)
      requires Placed() && a < |heap| && b < |heap| && a != b
      modifies this`heap, all`heapIdx
      ensures Placed() && all == old(all) && heap == Swapped(old(heap), a, b)
      ensures Deadlines(heap) == Swapped(old(Deadlines(heap)), a, b) && Pending() == old(Pending())
    {
      ghost var h := heap;
      ghost var d := Deadlines(heap);
      heap := heap[a := heap[b]][b := heap[a]];
      assert heap == Swapped(h, a, b);
      heap[a].heapIdx := a;
      heap[b].heapIdx := b;
      assert Deadlines(heap) == Swapped(d, a, b);
      assert forall t :: t in heap <==> t in h by {
        SwapKeeps(h, a, b);
      }
    }

    /** heap_up. */
    method Up(i0: nat)
      requires Placed() && i0 < |heap| && Broken(Deadlines(heap), i0)
      modifies this`heap, all`heapIdx
      ensures Placed() && all == old(all) && Pending() == old(Pending()) && |heap| == old(|heap|)
      ensures BrokenBelow(Deadlines(heap), i0)
    {
      hide Broken, BrokenAbove, BrokenBelow;
      var i: nat := i0;
      while i > 0
        invariant i <= i0 && Placed() && all == old(all) && Pending() == old(Pending()) && |heap| == old(|heap|)
        invariant (i == i0 && Broken(Deadlines(heap), i)) || BrokenAbove(Deadlines(heap), i)
      {
        var p := Parent(i);
        if heap[p].deadline <= heap[i].deadline {
          break;
        }
        UpStep(Deadlines(heap), i);
        Swap(i, p);
        i := p;
      }
      UpDone(Deadlines(heap), i, i0);
    }

    /** The earliest of slot i and its children. */
    method Earliest(i: nat) returns (m: nat)
      requires i < |heap|
      ensures m < |heap| && (m == i || (0 < m && Parent(m) == i && Deadlines(heap)[m] < Deadlines(heap)[i]))
      ensures forall j :: 0 < j < |heap| && Parent(j) == i ==> Deadlines(heap)[m] <= Deadlines(heap)[j]
    {
      m := i;
      var l := i * 2 + 1;
      var r := l + 1;
      if l < |heap| && heap[l].deadline < heap[m].deadline {
        m := l;
      }
      if r < |heap| && heap[r].deadline < heap[m].deadline {
        m := r;
      }
    }

    /** heap_down. */
    method Down(i0: nat)
      requires Placed() && i0 < |heap| && BrokenBelow(Deadlines(heap), i0)
      modifies this`heap, all`heapIdx
      ensures Valid() && all == old(all) && Pending() == old(Pending()) && |heap| == old(|heap|)
    {
      hide BrokenBelow, Ordered, Placed, Parent;
      var i: nat := i0;
      while true
        invariant i < |heap| && Placed() && all == old(all) && Pending() == old(Pending()) && |heap| == old(|heap|)
        invariant BrokenBelow(Deadlines(heap), i)
        decreases |heap| - i
      {
        var m := Earliest(i);
        if m == i {
          DownDone(Deadlines(heap), i);
          break;
        }
        DownStep(Deadlines(heap), i, m);
        Swap(i, m);
        i := m;
      }
    }

    /** elpis_timer_del: takes out exactly t. */
    method Del(t: Timer)
      requires Valid() && t in all
      modifies this`heap, all`heapIdx, t`active
      ensures Valid() && all == old(all) && !t.active && Pending() == old(Pending()) - {t}
      ensures old(t.active) ==> |heap| == old(|heap|) - 1
    {
      hide Ordered, Broken, BrokenBelow;
      if !t.active {
        return;
      }
      ghost var h, d := heap, Deadlines(heap);
      var i := t.heapIdx;
      t.active := false;
      if i >= |heap| || heap[i] != t {
        return;
      }
      var n := |heap| - 1;
      Taken(h, i);
      if i != n {
        heap := heap[..n][i := heap[n]];
        heap[i].heapIdx := i;
        assert Deadlines(heap) == d[..n][i := d[n]];
        Replaced(d, i);
        Up(i);
        Down(i);
      } else {
        heap := heap[..n];
        assert Deadlines(heap) == d[..n];
        Shortened(d);
      }
    }

    /** elpis_timer_add: puts in exactly t, whether or not it was there before. */
    method Add(t: Timer, delay: nat, now: nat)
      requires Valid() && t in all
      modifies this`heap, all`heapIdx, t`active, t`deadline
      ensures Valid() && all == old(all) && t.active && t.deadline == (now + delay) % W64
      ensures Pending() == old(Pending()) + {t}
    {
      if t.active {
        Del(t);
      }
      Append(t, (now + delay) % W64);
    }

    method Append(t: Timer, deadline: nat)
      requires Valid() && t in all && !t.active
      modifies this`heap, all`heapIdx, t`active, t`deadline
      ensures Valid() && all == old(all) && t.active && t.deadline == deadline
      ensures Pending() == old(Pending()) + {t} && |heap| == old(|heap|) + 1
    {
      hide Ordered, Broken, BrokenBelow;
      ghost var h, d := heap, Deadlines(heap);
      assert t !in h;
      t.deadline := deadline;
      t.active := true;
      t.heapIdx := |heap|;
      heap := heap + [t];
      assert Deadlines(heap) == d + [deadline];
      assert Pending() == (set u | u in h) + {t};
      Extended(d, deadline);
      Up(t.heapIdx);
      DownDone(Deadlines(heap), |heap| - 1);
    }

    /** What a callback does: any additions and deletions, of any timers. */
    method Perform(ops: seq<Op>)
      requires Valid() && forall k :: 0 <= k < |ops| ==> ops[k].t in all
      modifies this`heap, all
      ensures Valid() && all == old(all)
      ensures ops == [] ==> Pending() == old(Pending()) && forall t :: t in all ==> t.deadline == old(t.deadline)
    {
      for k := 0 to |ops|
        invariant Valid() && all == old(all)
        invariant k == 0 ==> Pending() == old(Pending()) && forall t :: t in all ==> t.deadline == old(t.deadline)
      {
        match ops[k] {
          case AddOp(t, delay, now) => Add(t, delay, now);
          case DelOp(t) => Del(t);
        }
      }
    }

    ghost predicate OnlyDueGone(before: set<Timer>, after: set<Timer>, now: nat)
      reads before
    {
      after <= before && forall t :: t in before - after ==> t.deadline <= now
    }

    /** timers_run, where the n-th callback does what script[n] says. */
    method RunTimers(now: nat, script: seq<seq<Op>>) returns (n: nat, ghost fired: seq<Fired>)
      requires Valid() && forall i, k :: 0 <= i < |script| && 0 <= k < |script[i]| ==> script[i][k].t in all
      modifies this`heap, all
      ensures Valid() && all == old(all) && n == |fired| <= STORM + 1
      ensures forall k :: 0 <= k < n ==> fired[k].due <= now && forall d :: d in fired[k].pending ==> fired[k].due <= d
      ensures n <= STORM ==> forall t :: t in heap ==> t.deadline > now
      ensures (forall i :: 0 <= i < |script| ==> script[i] == []) ==> OnlyDueGone(old(Pending()), Pending(), now)
      ensures (forall i :: 0 <= i < |script| ==> script[i] == []) ==>
                forall t :: t in all ==> t.deadline == old(t.deadline)
    {
      n, fired := 0, [];
      while |heap| > 0 && heap[0].deadline <= now
        invariant Valid() && all == old(all) && n == |fired| <= STORM
        invariant forall k :: 0 <= k < n ==>
                    fired[k].due <= now && forall d :: d in fired[k].pending ==> fired[k].due <= d
        invariant (forall i :: 0 <= i < |script| ==> script[i] == []) ==> OnlyDueGone(old(Pending()), Pending(), now)
        invariant (forall i :: 0 <= i < |script| ==> script[i] == []) ==>
                    forall t :: t in all ==> t.deadline == old(t.deadline)
        decreases STORM - n
      {
        var t := heap[0];
        fired := fired + [Fired(t.deadline, Deadlines(heap))];
        RootIsLeast(Deadlines(heap));
        Del(t);
        if n < |script| {
          Perform(script[n]);
        }
        n := n + 1;
        if n > STORM {
          return;
        }
      }
      if |heap| > 0 {
        RootIsLeast(Deadlines(heap));
      }
    }
  }

  datatype Op = AddOp(t: Timer, delay: nat, now: nat) | DelOp(t: Timer)

  /** A timer that fired: its deadline, and all deadlines pending at that moment. */
  datatype Fired = Fired(due: nat, pending: seq<nat>)

  lemma {:induction false} RootIsLeast(d: seq<nat>)
    requires Ordered(d) && |d| > 0
    ensures forall i :: 0 <= i < |d| ==> d[0] <= d[i]
  {
    hide Ordered;
    forall i | 0 <= i < |d|
      ensures d[0] <= d[i]
    {
      RootLeast(d, i);
    }
  }

  /** Without its last value, or with the last value in place of another. */
  lemma {:induction false} Shortened(d: seq<nat>)
    requires Ordered(d) && |d| > 0
    ensures Ordered(d[..|d| - 1])
  {
    var e := d[..|d| - 1];
    forall j | 0 < j < |e|
      ensures Edge(e, j)
    {
      assert Edge(d, j);
    }
  }

  lemma {:induction false} Replaced(d: seq<nat>, i: nat)
    requires Ordered(d) && i < |d| - 1
    ensures Broken(d[..|d| - 1][i := d[|d| - 1]], i)
  {
    var e := d[..|d| - 1][i := d[|d| - 1]];
    forall j | 0 < j < |e| && j != i && Parent(j) != i
      ensures Edge(e, j)
    {
      assert Edge(d, j);
    }
    forall j | 0 < j < |e| && 0 < i && Parent(j) == i
      ensures e[Parent(i)] <= e[j]
    {
      assert Edge(d, j) && Edge(d, i);
    }
  }

  lemma {:induction false} Extended(d: seq<nat>, x: nat)
    requires Ordered(d)
    ensures Broken(d + [x], |d|)
  {
    forall j | 0 < j < |d|
      ensures Edge(d + [x], j)
    {
      assert Edge(d, j);
    }
  }

  /** What is in a sequence of distinct things once one of them is taken out. */
  lemma {:induction false} Taken(h: seq<Timer>, i: nat)
    requires i < |h| && forall a, b :: 0 <= a < b < |h| ==> h[a] != h[b]
    ensures var n := |h| - 1; var r := if i != n then h[..n][i := h[n]] else h[..n];
      forall t :: t in r <==> t in h && t != h[i]
  {
    var n := |h| - 1;
    var r := if i != n then h[..n][i := h[n]] else h[..n];
    forall t | t in h && t != h[i]
      ensures t in r
    {
      var k :| 0 <= k < |h| && h[k] == t;
      assert r[if k == n then i else k] == t;
    }
  }

  lemma {:induction false} SwapKeeps<T>(s: seq<T>, a: nat, b: nat)
    requires a < |s| && b < |s|
    ensures forall t :: t in Swapped(s, a, b) <==> t in s
  {
    var r := Swapped(s, a, b);
    forall t | t in s
      ensures t in r
    {
      var i :| 0 <= i < |s| && s[i] == t;
      assert r[if i == a then b else if i == b then a else i] == t;
    }
  }
}
