/**
 Per-server state (src/cache/infra.c): round-trip estimate, holding silent servers, and DNS
 over TLS.  An update works on a copy of the record and stores the copy, so each is a function.
 */
module Infra {
  import opened Words

  const RTT_INITIAL: nat := 376
  const RTT_MAX: nat := 12000
  const INFRA_TTL: nat := 3600
  const HOLD_AFTER: nat := 3
  const HOLD_SILENT_S: nat := 10
  const DOT_CLAIM_S: nat := 10
  const GIVE_UP_KEEP_S: nat := 30 * 86400

  datatype QClass = QcA | QcAaaa | QcSvcb | QcOther

  datatype DotState = DotUnknown | DotAvailable | DotFailed | DotUnavailable

  datatype DotMode = Plain | Use | Test

  datatype Info = Info(
    srtt: u32, rttvar: u32, queries: u32, timeouts: nat,
    silentTypes: set<QClass>, silentSince: u32, holdUntil: u32, lastUsed: u32,
    dotState: DotState, dotTries: nat, dotUntil: u32, dotClaim: u32, dotKeep: u32)

  function Add32(a: u32, b: int): u32
    requires b >= 0
  {
    (a + b) % W32
  }

  /** Seconds from t to now by a clock that wraps at 2^32. */
  function Elapsed(t: u32, now: u32): nat {
    (now - t) % W32
  }

  /** The clock did not wrap between t and now when it ought to have, d seconds on, or did when it ought not. */
  predicate WrapsAmiss(t: u32, d: u32, now: u32) {
    (t + d >= W32) == (now >= t)
  }

  /**
   Every deadline in the record is a wrapped sum that is compared with the wrapped clock.  That
   agrees with the time elapsed exactly when the sum wraps if and only if the clock has.
   */
  lemma {:induction false} DeadlineRightIff(t: u32, d: u32, now: u32)
    ensures (now < Add32(t, d) <==> Elapsed(t, now) < d) <==> !WrapsAmiss(t, d, now)
  {
    if t + d >= W32 {
      assert Add32(t, d) == t + d - W32;
    }
    if now < t {
      assert Elapsed(t, now) == now - t + W32;
    }
  }

  function Defaults(): Info {
    Info(RTT_INITIAL, RTT_INITIAL / 2, 0, 0, {}, 0, 0, 0, DotUnknown, 0, 0, 0, 0)
  }

  /** After an hour of disuse only the DoT state carries on. */
  function Freshen(i: Info, now: u32): Info {
    if i.lastUsed == 0 || now < Add32(i.lastUsed, INFRA_TTL) then i
    else
      Defaults().(dotState := i.dotState, dotTries := i.dotTries, dotUntil := i.dotUntil, dotKeep := i.dotKeep,
                  lastUsed := i.lastUsed)
  }

  // ---------------------------------------------------------------------------
  // Round-trip times
  // ---------------------------------------------------------------------------

  function Cap(x: int, m: nat): nat
    requires x >= 0
  {
    if x > m then m else x
  }

  /** The smoothed estimate and its variation after a sample, in signed 32-bit arithmetic. */
  function Smoothed(srtt: int, rttvar: int, rtt: int): (int, int) {
    var err := rtt - srtt;
    var dev := if err < 0 then -err else err;
    (srtt + err / 8, rttvar + (dev - rttvar) / 4)
  }

  /** The estimate moves towards the sample and not past it; neither figure leaves its range. */
  lemma {:induction false} SmoothedOk(srtt: int, rttvar: int, rtt: int)
    requires 0 <= srtt <= RTT_MAX && 0 <= rttvar <= RTT_MAX && 0 <= rtt <= RTT_MAX
    ensures var (s, v) := Smoothed(srtt, rttvar, rtt);
      && (srtt <= s <= rtt || rtt <= s <= srtt) && (s == srtt <==> srtt <= rtt < srtt + 8) && 0 <= v <= RTT_MAX
  {
  }

  function RttOk(i: Info, rtt: u32): Info
    requires i.srtt <= RTT_MAX && i.rttvar <= RTT_MAX
  {
    var r := Cap(rtt, RTT_MAX);
    SmoothedOk(i.srtt, i.rttvar, r);
    var (s, v) := if i.queries == 0 then (r, r / 2) else Smoothed(i.srtt, i.rttvar, r);
    i.(srtt := Cap(s, RTT_MAX), rttvar := v, timeouts := 0, silentTypes := {}, silentSince := 0, holdUntil := 0,
       queries := Add32(i.queries, 1))
  }

  // ---------------------------------------------------------------------------
  // Silence
  // ---------------------------------------------------------------------------

  function Stamp(now: u32): u32 {
    if now == 0 then 1 else now
  }

  function Timeout(i: Info, c: QClass, now: u32, holdS: u32): Info
    requires i.srtt <= RTT_MAX
  {
    var since := if i.timeouts == 0 || i.silentSince == 0 then Stamp(now) else i.silentSince;
    var n := if i.timeouts < 1000 then i.timeouts + 1 else i.timeouts;
    var j := i.(silentSince := since, timeouts := n, silentTypes := i.silentTypes + {c},
                srtt := Cap(i.srtt * 2, RTT_MAX), queries := Add32(i.queries, 1));
    if holdS != 0 && n >= HOLD_AFTER && now >= Add32(since, HOLD_SILENT_S)
    then j.(holdUntil := Add32(now, holdS))
    else j
  }

  predicate Held(i: Info, c: QClass, now: u32) {
    i.holdUntil != 0 && now < i.holdUntil && c in i.silentTypes
  }

  function Hold(i: Info, until: u32): Info {
    if i.holdUntil != 0 then i.(holdUntil := until) else i
  }

  // ---------------------------------------------------------------------------
  // DNS over TLS
  // ---------------------------------------------------------------------------

  function Mode(i: Info, now: u32): DotMode {
    var claimed := i.dotClaim != 0 && now < i.dotClaim;
    match i.dotState
    case DotAvailable => if now < i.dotUntil then Use else if claimed then Plain else Test
    case DotFailed => if now < i.dotUntil || claimed then Plain else Test
    case DotUnavailable => Plain
    case DotUnknown => if claimed then Plain else Test
  }

  /** Claiming the next test; refused while someone else's claim stands. */
  function Claim(i: Info, now: u32): (Info, bool) {
    if i.dotClaim != 0 && now < i.dotClaim then (i, false) else (i.(dotClaim := Add32(now, DOT_CLAIM_S)), true)
  }

  function DotOk(i: Info, now: u32, ttl: u32): Info {
    var until := Add32(now, ttl);
    i.(dotState := DotAvailable, dotTries := 0, dotUntil := until, dotClaim := 0, dotKeep := until)
  }

  function DotFail(i: Info, now: u32, retry: u32, maxTry: u32): Info {
    var n := if i.dotTries < 255 then i.dotTries + 1 else i.dotTries;
    if maxTry != 0 && n > maxTry then
      i.(dotTries := n, dotClaim := 0, dotState := DotUnavailable, dotUntil := 0, dotKeep := Add32(now, GIVE_UP_KEEP_S))
    else
      var until := Add32(now, retry);
      i.(dotTries := n, dotClaim := 0, dotState := DotFailed, dotUntil := until, dotKeep := Add32(until, 86400))
  }

  // ---------------------------------------------------------------------------
  // Runs
  // ---------------------------------------------------------------------------

  datatype Kind =
    | Answer(rtt: u32)
    | Silence(cls: QClass, holdS: u32)
    | HoldOn(until: u32)
    | DotAnswer(ttl: u32)
    | DotFailure(retry: u32, maxTry: u32)
    | DotClaim
    | Other
    | Lost

  /** Something that happens to a server's entry; Lost is its eviction or expiry. */
  datatype Event = Event(now: u32, kind: Kind)

  datatype Tout = Tout(time: u32, cls: QClass)

  /** What has happened: timeouts since the last answer, DoT failures since DoT last worked. */
  datatype Hist = Hist(touts: seq<Tout>, dotFails: nat, dotOk: Option<Event>, lastMax: u32)

  datatype World = World(entry: Option<Info>, hist: Hist)

  function Current(w: World, now: u32): Info {
    match w.entry
    case None => Defaults()
    case Some(i) => Freshen(i, now)
  }

  predicate InRange(i: Info) {
    i.srtt <= RTT_MAX && i.rttvar <= RTT_MAX
  }

  function Apply(i: Info, e: Event): Info
    requires InRange(i)
  {
    match e.kind
    case Answer(rtt) => RttOk(i, rtt)
    case Silence(c, holdS) => Timeout(i, c, e.now, holdS)
    case HoldOn(until) => Hold(i, until)
    case DotAnswer(ttl) => DotOk(i, e.now, ttl)
    case DotFailure(retry, maxTry) => DotFail(i, e.now, retry, maxTry)
    case DotClaim => Claim(i, e.now).0
    case Other => i
    case Lost => i
  }

  function Record(h: Hist, e: Event): Hist {
    match e.kind
    case Answer(_) => h.(touts := [])
    case Silence(c, _) => h.(touts := h.touts + [Tout(e.now, c)])
    case DotAnswer(_) => h.(dotFails := 0, dotOk := Some(e))
    case DotFailure(_, maxTry) => h.(dotFails := h.dotFails + 1, lastMax := maxTry)
    case _ => h
  }

  /** infra_update: freshen the copy, change it, stamp it, store it. */
  function Step(w: World, e: Event): World
    requires w.entry.Some? ==> InRange(w.entry.value)
  {
    World(if e.kind == Lost then None else Some(Apply(Current(w, e.now), e).(lastUsed := e.now)), Record(w.hist, e))
  }

  /** Three timeouts since the last answer, one of them ten seconds after another. */
  ghost predicate Justified(ts: seq<Tout>) {
    |ts| >= HOLD_AFTER && exists j, k :: 0 <= j < k < |ts| && ts[k].time >= Add32(Stamp(ts[j].time), HOLD_SILENT_S)
  }

  ghost predicate Seen(ts: seq<Tout>, c: QClass) {
    exists k :: 0 <= k < |ts| && ts[k].cls == c
  }

  ghost predicate Began(ts: seq<Tout>, since: u32) {
    since > 0 && exists k :: 0 <= k < |ts| && Stamp(ts[k].time) == since
  }

  ghost predicate SilenceOk(i: Info, ts: seq<Tout>) {
    && i.timeouts <= |ts| && (forall c :: c in i.silentTypes ==> Seen(ts, c))
    && (i.timeouts > 0 ==> Began(ts, i.silentSince)) && (i.holdUntil != 0 ==> Justified(ts))
  }

  /** DoT last worked, and holds until its time to live from then is over. */
  predicate Renewed(ok: Option<Event>, until: u32) {
    ok.Some? && ok.value.kind.DotAnswer? && until == Add32(ok.value.now, ok.value.kind.ttl)
  }

  ghost predicate DotStateOk(i: Info, h: Hist) {
    && i.dotTries <= h.dotFails
    && (i.dotState == DotAvailable ==> h.dotFails == 0 && Renewed(h.dotOk, i.dotUntil))
    && (i.dotState == DotUnavailable ==> 0 < h.lastMax < h.dotFails)
    && (i.dotState == DotFailed ==> h.dotFails > 0)
  }

  ghost predicate InfoOk(i: Info, h: Hist) {
    InRange(i) && SilenceOk(i, h.touts) && DotStateOk(i, h)
  }

  ghost predicate WorldOk(w: World) {
    w.entry.Some? ==> InfoOk(w.entry.value, w.hist)
  }

  lemma {:induction false} CurrentOk(w: World, now: u32)
    requires WorldOk(w)
    ensures InfoOk(Current(w, now), w.hist)
  {
  }

  /** A timeout is added to the record and to the history alike. */
  lemma {:induction false} TimeoutOk(i: Info, ts: seq<Tout>, c: QClass, now: u32, holdS: u32)
    requires InRange(i) && SilenceOk(i, ts)
    ensures SilenceOk(Timeout(i, c, now, holdS), ts + [Tout(now, c)])
  {
    var j, us := Timeout(i, c, now, holdS), ts + [Tout(now, c)];
    assert us[|ts|] == Tout(now, c);
    assert forall k :: 0 <= k < |ts| ==> us[k] == ts[k];
    forall d | d in j.silentTypes
      ensures Seen(us, d)
    {
      if d in i.silentTypes {
        assert Seen(ts, d);
        var k :| 0 <= k < |ts| && ts[k].cls == d;
        assert us[k].cls == d;
      } else {
        assert us[|ts|].cls == d;
      }
    }
    if i.timeouts > 0 {
      var k :| 0 <= k < |ts| && Stamp(ts[k].time) == i.silentSince;
      assert us[k] == ts[k] && Stamp(us[k].time) == i.silentSince;
      if j.timeouts >= HOLD_AFTER && now >= Add32(i.silentSince, HOLD_SILENT_S) {
        assert us[|ts|].time >= Add32(Stamp(us[k].time), HOLD_SILENT_S);
      }
    }
    if i.holdUntil != 0 {
      var a, b :| 0 <= a < b < |ts| && ts[b].time >= Add32(Stamp(ts[a].time), HOLD_SILENT_S);
      assert us[b].time >= Add32(Stamp(us[a].time), HOLD_SILENT_S);
    }
  }

  lemma {:induction false} ApplyOk(i: Info, h: Hist, e: Event)
    requires InfoOk(i, h) && e.kind != Lost
    ensures InfoOk(Apply(i, e), Record(h, e))
  {
    match e.kind {
      case Answer(rtt) => SmoothedOk(i.srtt, i.rttvar, Cap(rtt, RTT_MAX));
      case Silence(c, holdS) => TimeoutOk(i, h.touts, c, e.now, holdS);
      case _ =>
    }
  }

  lemma {:induction false} StepOk(w: World, e: Event)
    requires WorldOk(w)
    ensures WorldOk(Step(w, e))
  {
    hide InfoOk, Apply, Record, Current;
    CurrentOk(w, e.now);
    if e.kind != Lost {
      ApplyOk(Current(w, e.now), w.hist, e);
      StampedOk(Apply(Current(w, e.now), e), Record(w.hist, e), e.now);
    }
  }

  lemma {:induction false} StampedOk(i: Info, h: Hist, now: u32)
    requires InfoOk(i, h)
    ensures InfoOk(i.(lastUsed := now), h)
  {
  }

  const START: World := World(None, Hist([], 0, None, 0))

  ghost function Run(es: seq<Event>): (w: World)
    ensures WorldOk(w)
  {
    if |es| == 0 then START
    else
      var w := Run(es[..|es| - 1]);
      StepOk(w, es[|es| - 1]);
      Step(w, es[|es| - 1])
  }

  /**
   A server is held for a class only after three timeouts since its last answer, one of that
   class and one late enough.
   */
  lemma {:induction false} HeldOnlyIf(es: seq<Event>, c: QClass, now: u32)
    requires Held(Current(Run(es), now), c, now)
    ensures var ts := Run(es).hist.touts; Justified(ts) && Seen(ts, c)
  {
    hide Justified, Seen;
    CurrentOk(Run(es), now);
  }

  /** Ten seconds on, the clock would have wrapped, and it has not. */
  predicate EarlyAt(since: u32, now: u32) {
    since + HOLD_SILENT_S >= W32 && now >= since
  }

  /**
   The test for ten seconds of silence passes early exactly when the clock would wrap within
   them and has not, and fails late exactly when the clock wrapped after them.
   */
  lemma {:induction false} HoldRightIff(since: u32, now: u32)
    ensures now >= Add32(since, HOLD_SILENT_S) && Elapsed(since, now) < HOLD_SILENT_S <==> EarlyAt(since, now)
    ensures now < Add32(since, HOLD_SILENT_S) && Elapsed(since, now) >= HOLD_SILENT_S
      <==> since + HOLD_SILENT_S < W32 && now < since
  {
    DeadlineRightIff(since, HOLD_SILENT_S, now);
    if now < since {
      assert Elapsed(since, now) == now - since + W32;
    }
  }

  /** A record on which the test passes in the very second the silence began; no forward clock leads to one. */
  lemma {:induction false} EarlyHold()
    ensures var i := Defaults().(timeouts := 2, silentSince := W32 - 1);
      Timeout(i, QcA, W32 - 1, 60).holdUntil != 0 && Elapsed(i.silentSince, W32 - 1) == 0
  {
  }

  lemma {:induction false} RunSnoc(es: seq<Event>, e: Event)
    ensures Run(es + [e]) == Step(Run(es), e)
  {
    assert (es + [e])[..|es|] == es;
  }

  // Three events from the start.
  lemma {:induction false} RunThree(a: Event, b: Event, c: Event)
    ensures WorldOk(START) && WorldOk(Step(START, a)) && WorldOk(Step(Step(START, a), b))
    ensures Run([a, b, c]) == Step(Step(Step(START, a), b), c)
  {
    hide Step, WorldOk;
    StepOk(START, a) by { StartOk(); }
    StepOk(Step(START, a), b);
    StartOk();
    RunSnoc([], a);
    RunSnoc([a], b);
    RunSnoc([a, b], c);
    assert [] + [a] == [a] && [a] + [b] == [a, b] && [a, b] + [c] == [a, b, c];
  }

  lemma {:induction false} StartOk()
    ensures WorldOk(START) && Run([]) == START
  {
  }

  // ---------------------------------------------------------------------------
  // A clock that only goes forward
  // ---------------------------------------------------------------------------

  /** The events happen at the times ts, which never go back; the code sees them modulo 2^32. */
  ghost predicate Clocked(es: seq<Event>, ts: seq<nat>) {
    && |es| == |ts| && (forall k :: 0 <= k < |es| ==> es[k].now == ts[k] % W32)
    && forall j, k :: 0 <= j <= k < |ts| ==> ts[j] <= ts[k]
  }

  /** No answer from event j on. */
  ghost predicate QuietFrom(es: seq<Event>, j: nat) {
    forall m :: j <= m < |es| ==> !es[m].kind.Answer?
  }

  /** Event j is a timeout with no answer since. */
  ghost predicate Unanswered(es: seq<Event>, j: nat) {
    j < |es| && es[j].kind.Silence? && QuietFrom(es, j)
  }

  /** Two timeouts with no answer since, at least ten seconds apart by the time that really passed. */
  ghost predicate ReallyLate(es: seq<Event>, ts: seq<nat>) {
    exists j, k :: 0 <= j < k < |es| == |ts| && Unanswered(es, j) && Unanswered(es, k) && ts[k] - ts[j] >= HOLD_SILENT_S
  }

  ghost predicate SilentFrom(es: seq<Event>, since: u32) {
    exists j :: 0 <= j < |es| && Unanswered(es, j) && Stamp(es[j].now) == since
  }

  ghost predicate RealInfo(i: Info, es: seq<Event>, ts: seq<nat>) {
    (i.timeouts > 0 ==> SilentFrom(es, i.silentSince)) && (i.holdUntil != 0 ==> ReallyLate(es, ts))
  }

  ghost predicate RealWorld(w: World, es: seq<Event>, ts: seq<nat>) {
    w.entry.Some? ==> RealInfo(w.entry.value, es, ts) && |es| > 0 && w.entry.value.lastUsed == es[|es| - 1].now
  }

  // Less than a round apart, the wrapped clock tells the time between.
  lemma {:induction false} ModDiff(s: nat, t: nat, a: u32, b: u32)
    requires s <= t < s + W32 && a == s % W32 && b == t % W32
    ensures Elapsed(a, b) == t - s
  {
    var m, n := s / W32, t / W32;
    assert s == m * W32 + a && t == n * W32 + b;
    assert n == m || n == m + 1;
    ElapsedIs(a, b);
  }

  // A test for silence that passes before ten seconds are over finds the entry aged instead.
  lemma {:induction false} NotEarly(s: nat, u: nat, t: nat)
    requires s <= u <= t && t % W32 >= Add32(Stamp(s % W32), HOLD_SILENT_S)
    requires u % W32 == 0 || t % W32 < Add32(u % W32, INFRA_TTL)
    ensures t - s >= HOLD_SILENT_S
  {
    hide Elapsed, Stamp, Add32;
    var a, b, c := s % W32, u % W32, t % W32;
    if t - s < HOLD_SILENT_S {
      ModDiff(s, t, a, c);
      ModDiff(s, u, a, b);
      ModDiff(u, t, b, c);
      AgedFirst(a, b, c);
    }
  }

  lemma {:induction false} AgedFirst(s: u32, u: u32, t: u32)
    requires t >= Add32(Stamp(s), HOLD_SILENT_S) && Elapsed(s, u) + Elapsed(u, t) == Elapsed(s, t)
    requires u == 0 || t < Add32(u, INFRA_TTL)
    ensures Elapsed(s, t) >= HOLD_SILENT_S
  {
    ElapsedIs(s, u);
    ElapsedIs(u, t);
    ElapsedIs(s, t);
    hide Elapsed;
    if u + INFRA_TTL >= W32 {
      assert Add32(u, INFRA_TTL) == u + INFRA_TTL - W32;
    }
    if Stamp(s) + HOLD_SILENT_S >= W32 {
      assert Add32(Stamp(s), HOLD_SILENT_S) == Stamp(s) + HOLD_SILENT_S - W32;
    }
  }

  lemma {:induction false} ElapsedIs(t: u32, now: u32)
    ensures Elapsed(t, now) == if now >= t then now - t else now - t + W32
  {
  }

  // What was true of the events so far, with one more that is not an answer.
  lemma {:induction false} OneMore(i: Info, es: seq<Event>, ts: seq<nat>, e: Event, t: nat)
    requires RealInfo(i, es, ts) && |es| == |ts| && !e.kind.Answer?
    ensures RealInfo(i, es + [e], ts + [t])
  {
    var fs, us := es + [e], ts + [t];
    forall j | 0 <= j < |es| && Unanswered(es, j)
      ensures Unanswered(fs, j) && fs[j] == es[j]
    {
    }
    if i.timeouts > 0 {
      var j :| 0 <= j < |es| && Unanswered(es, j) && Stamp(es[j].now) == i.silentSince;
      assert Unanswered(fs, j) && Stamp(fs[j].now) == i.silentSince;
    }
    if i.holdUntil != 0 {
      var j, k :| 0 <= j < k < |es| && Unanswered(es, j) && Unanswered(es, k) && ts[k] - ts[j] >= HOLD_SILENT_S;
      assert Unanswered(fs, j) && Unanswered(fs, k) && us[k] - us[j] >= HOLD_SILENT_S;
    }
  }

  lemma {:induction false} RealTimeout(w: World, es: seq<Event>, ts: seq<nat>, e: Event, t: nat)
    requires WorldOk(w) && RealWorld(w, es, ts) && Clocked(es + [e], ts + [t]) && |es| == |ts| && e.kind.Silence?
    ensures InRange(Current(w, e.now))
    ensures RealInfo(Timeout(Current(w, e.now), e.kind.cls, e.now, e.kind.holdS), es + [e], ts + [t])
  {
    hide InfoOk, RealInfo;
    CurrentOk(w, e.now);
    var i := Current(w, e.now);
    var fs, us, n := es + [e], ts + [t], |es|;
    assert InRange(i) by {
      RangeOf(i, w.hist);
    }
    assert fs[n] == e && us[n] == t && Unanswered(fs, n);
    var j := Timeout(i, e.kind.cls, e.now, e.kind.holdS);
    if i.timeouts == 0 {
      FirstTimeout(w, es, ts, e, t, i, j);
    } else {
      LaterTimeout(w, es, ts, e, t, i, j);
    }
  }

  lemma {:induction false} RangeOf(i: Info, h: Hist)
    requires InfoOk(i, h)
    ensures InRange(i)
  {
  }

  // The entry is new, aged, or was last heard from.
  lemma {:induction false} FirstTimeout(w: World, es: seq<Event>, ts: seq<nat>, e: Event, t: nat, i: Info, j: Info)
    requires RealWorld(w, es, ts) && |es| == |ts| && e.kind.Silence?
    requires i == Current(w, e.now) && i.timeouts == 0 && InRange(i) && j == Timeout(i, e.kind.cls, e.now, e.kind.holdS)
    ensures RealInfo(j, es + [e], ts + [t])
  {
    var fs := es + [e];
    assert fs[|es|] == e && Unanswered(fs, |es|) && Stamp(fs[|es|].now) == j.silentSince;
    assert SilentFrom(fs, j.silentSince);
    if j.holdUntil != 0 {
      assert i.holdUntil != 0;
      OneMore(w.entry.value, es, ts, e, t);
    }
  }

  lemma {:induction false} LaterTimeout(w: World, es: seq<Event>, ts: seq<nat>, e: Event, t: nat, i: Info, j: Info)
    requires RealWorld(w, es, ts) && Clocked(es + [e], ts + [t]) && |es| == |ts| && e.kind.Silence?
    requires i == Current(w, e.now) && i.timeouts > 0 && InRange(i) && j == Timeout(i, e.kind.cls, e.now, e.kind.holdS)
    ensures RealInfo(j, es + [e], ts + [t])
  {
    var fs, us, n := es + [e], ts + [t], |es|;
    assert w.entry.Some? && i == w.entry.value && fs[n] == e && us[n] == t;
    OneMore(i, es, ts, e, t);
    hide Current;
    var s :| 0 <= s < n && Unanswered(es, s) && Stamp(es[s].now) == i.silentSince;
    assert Unanswered(fs, s) && fs[s] == es[s] && Unanswered(fs, n);
    assert j.silentSince == i.silentSince || j.silentSince == Stamp(e.now);
    assert SilentFrom(fs, j.silentSince) by {
      assert Stamp(fs[s].now) == i.silentSince && Stamp(fs[n].now) == Stamp(e.now);
    }
    if j.holdUntil != i.holdUntil {
      assert fs[n - 1] == es[n - 1] && us[s] <= us[n - 1] <= us[n];
      assert i.lastUsed == us[n - 1] % W32 && i.silentSince == Stamp(us[s] % W32);
      NotEarly(us[s], us[n - 1], us[n]);
      assert us[n] - us[s] >= HOLD_SILENT_S;
    }
  }

  lemma {:induction false} RealStep(w: World, es: seq<Event>, ts: seq<nat>, e: Event, t: nat)
    requires WorldOk(w) && RealWorld(w, es, ts) && Clocked(es + [e], ts + [t]) && |es| == |ts|
    ensures RealWorld(Step(w, e), es + [e], ts + [t])
  {
    hide InfoOk, RealInfo, Timeout, Clocked;
    CurrentOk(w, e.now);
    var i := Current(w, e.now);
    RangeOf(i, w.hist);
    if w.entry.Some? {
      RangeOf(w.entry.value, w.hist);
    }
    if e.kind != Lost {
      if e.kind.Silence? {
        RealTimeout(w, es, ts, e, t);
        RealFields(Timeout(i, e.kind.cls, e.now, e.kind.holdS), Step(w, e).entry.value, es + [e], ts + [t]);
      } else if e.kind.Answer? {
        NothingHeld(Step(w, e).entry.value, es + [e], ts + [t]);
      } else {
        RealCurrent(w, es, ts, e.now);
        OneMore(i, es, ts, e, t);
        RealFields(i, Step(w, e).entry.value, es + [e], ts + [t]);
      }
    }
  }

  lemma {:induction false} NothingHeld(i: Info, es: seq<Event>, ts: seq<nat>)
    requires i.timeouts == 0 && i.holdUntil == 0
    ensures RealInfo(i, es, ts)
  {
  }

  lemma {:induction false} RealCurrent(w: World, es: seq<Event>, ts: seq<nat>, now: u32)
    requires RealWorld(w, es, ts)
    ensures RealInfo(Current(w, now), es, ts)
  {
  }

  lemma {:induction false} RealFields(i: Info, j: Info, es: seq<Event>, ts: seq<nat>)
    requires RealInfo(i, es, ts) && i.timeouts == j.timeouts && i.silentSince == j.silentSince
    requires j.holdUntil != 0 ==> i.holdUntil != 0
    ensures RealInfo(j, es, ts)
  {
  }

  lemma {:induction false} RealRun(es: seq<Event>, ts: seq<nat>)
    requires Clocked(es, ts)
    ensures RealWorld(Run(es), es, ts)
    decreases |es|
  {
    hide RealWorld, Step, WorldOk;
    if |es| == 0 {
      assert RealWorld(START, es, ts) by { StartReal(es, ts); }
    } else {
      var n := |es| - 1;
      var fs, us := es[..n], ts[..n];
      assert fs + [es[n]] == es && us + [ts[n]] == ts;
      RealRun(fs, us);
      RealStep(Run(fs), fs, us, es[n], ts[n]);
    }
  }

  lemma {:induction false} StartReal(es: seq<Event>, ts: seq<nat>)
    ensures RealWorld(START, es, ts)
  {
  }

  /**
   With a clock that only goes forward, a server is held only when two timeouts with no answer
   since really were ten seconds apart.  The test alone would pass early just before the clock
   wraps, but there every update finds the entry aged and starts the count over.
   */
  lemma {:induction false} HeldReally(es: seq<Event>, ts: seq<nat>, c: QClass, now: u32)
    requires Clocked(es, ts) && Held(Current(Run(es), now), c, now)
    ensures ReallyLate(es, ts)
  {
    hide RealInfo, ReallyLate;
    RealRun(es, ts);
    RealCurrent(Run(es), es, ts, now);
    HeldIs(Current(Run(es), now), es, ts);
  }

  lemma {:induction false} HeldIs(i: Info, es: seq<Event>, ts: seq<nat>)
    requires RealInfo(i, es, ts) && i.holdUntil != 0
    ensures ReallyLate(es, ts)
  {
  }

  /** Three timeouts over twenty-five seconds across the wrap: not held, because the entry was taken for aged. */
  lemma {:induction false} LateHold()
    ensures var e, f := Event(W32 - 20, Silence(QcA, 60)), Event(5, Silence(QcA, 60));
      !Held(Current(Run([e, e, f]), 5), QcA, 5)
  {
    var e, f := Event(W32 - 20, Silence(QcA, 60)), Event(5, Silence(QcA, 60));
    hide Step, Run, Held, Current, WorldOk;
    RunThree(e, e, f);
    StartedOver(START, e, 0);
    StartedOver(Step(START, e), e, e.now);
    StillFew(Step(Step(START, e), e), f, Step(Step(START, e), e).entry.value);
  }

  // A timeout on a new entry, or one taken for aged, is the first.
  lemma {:induction false} StartedOver(w: World, e: Event, last: u32)
    requires WorldOk(w) && e == Event(W32 - 20, Silence(QcA, 60))
    requires w.entry.None? || (w.entry.value.lastUsed == last == e.now)
    ensures var i := Step(w, e).entry; i.Some? && i.value.timeouts == 1 && i.value.holdUntil == 0
    ensures Step(w, e).entry.value.lastUsed == e.now && Step(w, e).entry.value.silentSince == e.now
    ensures InRange(Step(w, e).entry.value)
  {
  }

  lemma {:induction false} StillFew(w: World, f: Event, i: Info)
    requires w.entry == Some(i) && InRange(i) && i.timeouts == 1 && i.holdUntil == 0
    requires f == Event(5, Silence(QcA, 60)) && i.lastUsed == W32 - 20
    ensures !Held(Current(Step(w, f), 5), QcA, 5)
  {
  }

  /** DoT is given up only after more failures since it last worked than the last one allowed. */
  lemma {:induction false} UnavailableOnlyIf(es: seq<Event>, now: u32)
    requires Current(Run(es), now).dotState == DotUnavailable
    ensures 0 < Run(es).hist.lastMax < Run(es).hist.dotFails
  {
    hide SilenceOk;
    CurrentOk(Run(es), now);
  }

  /**
   DoT is relied on only after a DoT answer with no failure since, and within the time to live
   of that answer, by the time elapsed, unless the clock has wrapped after that time was over.
   */
  lemma {:induction false} UseOnlyIf(es: seq<Event>, now: u32)
    requires Mode(Current(Run(es), now), now) == Use
    ensures var h := Run(es).hist; h.dotFails == 0 && h.dotOk.Some? && h.dotOk.value.kind.DotAnswer?
    ensures var ok := Run(es).hist.dotOk.value;
      Elapsed(ok.now, now) < ok.kind.ttl <==> ok.now <= now || ok.now + ok.kind.ttl >= W32
  {
    hide SilenceOk;
    CurrentOk(Run(es), now);
    var ok := Run(es).hist.dotOk.value;
    UseRightIff(ok.now, ok.kind.ttl, now);
  }

  /** While the deadline has not come, the time to live is not over unless the clock has wrapped after it. */
  lemma {:induction false} UseRightIff(ok: u32, ttl: u32, now: u32)
    requires now < Add32(ok, ttl)
    ensures Elapsed(ok, now) < ttl <==> ok <= now || ok + ttl >= W32
  {
    DeadlineRightIff(ok, ttl, now);
    if ok + ttl >= W32 {
      assert Add32(ok, ttl) == ok + ttl - W32;
    }
  }

  /** A DoT answer good for fifty seconds, relied on across the wrap 110 seconds later. */
  lemma {:induction false} StaleUse()
    ensures var e := Event(W32 - 100, DotAnswer(50));
      Mode(Current(Run([e]), 10), 10) == Use && Elapsed(e.now, 10) == 110
  {
    var e := Event(W32 - 100, DotAnswer(50));
    StartOk();
    RunSnoc([], e);
    assert [] + [e] == [e];
  }

  lemma {:induction false} RttInRange(es: seq<Event>, now: u32)
    ensures InRange(Current(Run(es), now))
  {
    CurrentOk(Run(es), now);
  }

  /** Events that do not end a test and do not lose the entry. */
  predicate LeavesClaim(e: Event) {
    !e.kind.DotAnswer? && !e.kind.DotFailure? && e.kind != Lost
  }

  /** A claim made at t0 stands in the entry, last touched within its ten seconds. */
  predicate ClaimedAt(w: World, t0: u32) {
    && w.entry.Some? && w.entry.value.dotClaim == t0 + DOT_CLAIM_S
    && t0 <= w.entry.value.lastUsed < t0 + DOT_CLAIM_S
  }

  // One event within the ten seconds of a claim: the claim stays, and no other is granted.
  lemma {:induction false} ClaimStep(w: World, e: Event, t0: u32)
    requires WorldOk(w) && ClaimedAt(w, t0) && t0 + INFRA_TTL + DOT_CLAIM_S < W32
    requires LeavesClaim(e) && t0 <= e.now < t0 + DOT_CLAIM_S
    ensures ClaimedAt(Step(w, e), t0) && Refused(w, e)
  {
    hide InfoOk;
    assert Current(w, e.now) == w.entry.value;
  }

  /** At e a test is neither due nor, if it asks for one, granted. */
  predicate Refused(w: World, e: Event) {
    !Claim(Current(w, e.now), e.now).1 && Mode(Current(w, e.now), e.now) != Test
  }

  /** Each event of es in turn is refused a test. */
  ghost predicate AllRefused(w: World, es: seq<Event>)
    requires WorldOk(w)
    decreases |es|
  {
    |es| > 0 ==> Refused(w, es[0]) && (StepOk(w, es[0]); AllRefused(Step(w, es[0]), es[1..]))
  }

  /**
   A claim to try DoT, granted more than an hour before the clock wraps: over every run of events
   in its ten seconds that do not end the test or lose the entry, no other claim is granted and
   the mode is never a trial.
   */
  lemma {:induction false} ClaimAlone(w: World, t0: u32, es: seq<Event>)
    requires WorldOk(w) && Claim(Current(w, t0), t0).1 && t0 + INFRA_TTL + DOT_CLAIM_S < W32
    requires forall k :: 0 <= k < |es| ==> LeavesClaim(es[k]) && t0 <= es[k].now < t0 + DOT_CLAIM_S
    ensures WorldOk(Step(w, Event(t0, DotClaim))) && AllRefused(Step(w, Event(t0, DotClaim)), es)
  {
    var e := Event(t0, DotClaim);
    StepOk(w, e);
    hide WorldOk;
    assert ClaimedAt(Step(w, e), t0);
    hide Step;
    ClaimRun(Step(w, e), t0, es);
  }

  lemma {:induction false} ClaimRun(w: World, t0: u32, es: seq<Event>)
    requires WorldOk(w) && ClaimedAt(w, t0) && t0 + INFRA_TTL + DOT_CLAIM_S < W32
    requires forall k :: 0 <= k < |es| ==> LeavesClaim(es[k]) && t0 <= es[k].now < t0 + DOT_CLAIM_S
    ensures AllRefused(w, es)
    decreases |es|
  {
    hide InfoOk, Apply, Record, Current, Refused, ClaimedAt;
    if w.entry.Some? {
      RangeOf(w.entry.value, w.hist);
    }
    if |es| > 0 {
      ClaimStep(w, es[0], t0);
      StepOk(w, es[0]);
      ClaimRun(Step(w, es[0]), t0, es[1..]);
    }
  }

  /**
   Of two claims less than ten seconds apart the second is refused exactly when the clock is more
   than an hour from wrapping, or has wrapped between them: otherwise the entry is taken for aged.
   */
  lemma {:induction false} ClaimRefusedIff(w: World, t0: u32, now: u32)
    requires WorldOk(w) && Claim(Current(w, t0), t0).1 && Elapsed(t0, now) < DOT_CLAIM_S
    ensures WorldOk(Step(w, Event(t0, DotClaim)))
    ensures !Claim(Current(Step(w, Event(t0, DotClaim)), now), now).1 <==> t0 + INFRA_TTL < W32 || now < t0
  {
    var e := Event(t0, DotClaim);
    StepOk(w, e);
    hide WorldOk;
    var i := Step(w, e).entry.value;
    assert i.dotClaim == Add32(t0, DOT_CLAIM_S) && i.lastUsed == t0;
    hide Step;
    DeadlineRightIff(t0, DOT_CLAIM_S, now);
    DeadlineRightIff(t0, INFRA_TTL, now);
  }

  /** A claim a hundred seconds before the wrap, and another granted a second later. */
  lemma {:induction false} ClaimTwice()
    ensures var e := Event(W32 - 100, DotClaim); Claim(Current(Run([e]), W32 - 99), W32 - 99).1
  {
    var e := Event(W32 - 100, DotClaim);
    StartOk();
    RunSnoc([], e);
    assert [] + [e] == [e];
  }
}
