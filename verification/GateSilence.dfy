/** A gate that has stopped reporting: which of expiry and an automatic transition wins, and what users see. */
module GateSilence {
  import opened Prelude
  import opened GateRow
  import opened GateTtl

  /** The first tick in which the transition list fires on the silent gate. */
  function FirstFiring(id: string, d: Standing, ttlSeconds: int, ticks: seq<Tick>, at: nat): Option<nat>
    decreases |ticks|
  {
    if |ticks| == 0 then None
    else if FiredBy(id, d, ttlSeconds, ticks[0]).Some? then Some(at)
    else FirstFiring(id, TickGate(id, d, ttlSeconds, ticks[0]), ttlSeconds, ticks[1..], at + 1)
  }

  predicate InWindow(tick: Tick, from: int, until: int) {
    from <= tick.now && tick.expiry <= until
  }

  function FirstInWindow(ticks: seq<Tick>, from: int, until: int, at: nat): Option<nat>
    decreases |ticks|
  {
    if |ticks| == 0 then None
    else if InWindow(ticks[0], from, until) then Some(at)
    else FirstInWindow(ticks[1..], from, until, at + 1)
  }

  lemma {:induction false} FoundIffInWindow(ticks: seq<Tick>, from: int, until: int, at: nat)
    ensures FirstInWindow(ticks, from, until, at).Some?
      <==> exists i :: 0 <= i < |ticks| && InWindow(ticks[i], from, until)
    decreases |ticks|
  {
    if |ticks| > 0 && !InWindow(ticks[0], from, until) {
      FoundIffInWindow(ticks[1..], from, until, at + 1);
      assert forall i :: 0 < i < |ticks| ==> ticks[i] == ticks[1..][i - 1];
    }
  }

  ghost predicate Ordered(ticks: seq<Tick>) {
    forall i, j :: 0 <= i < j < |ticks| ==> ticks[i].expiry <= ticks[j].expiry
  }

  ghost predicate WritesSucceed(ticks: seq<Tick>) {
    forall i :: 0 <= i < |ticks| ==> ticks[i].io(0).writeOk
  }

  /** A silent gate with its one, non-persistent transition pending. */
  ghost predicate Pending(row: Row, t: Transition) {
    row.lastSeen.Some? && row.transitions == [t] && !t.persistOnChange && row.status == t.from && !Exempt(row.status)
  }

  /** A list of one non-persistent transition: it fires when its status is current and its deadline reached. */
  lemma ScanOfOne(id: string, row: Row, t: Transition, now: int, io: nat -> Io, armed: Armed)
    requires row.lastSeen.Some? && row.transitions == [t] && !t.persistOnChange
    ensures ScanGate(id, row, now, io, armed).fired ==
            var due := row.status == t.from && now >= row.lastSeen.value + AfterMicros(t.afterSeconds);
            if due && io(0).writeOk then Some(0) else None
  {
    var turn := AfterTurn(id, row, 0, now, io, armed);
    ScanTakesOneTurn(id, row, 0, now, io, armed);
    assert ScanFrom(id, row, 1, now, io, turn) == Scan(turn, None);
  }

  lemma TickOfPending(id: string, d: Standing, ttlSeconds: int, t: Transition, tick: Tick)
    requires Pending(d.row, t) && tick.io(0).writeOk
    requires tick.expiry <= d.row.lastSeen.value + Ttl(d.row, ttlSeconds)
    ensures var due := tick.now >= d.row.lastSeen.value + AfterMicros(t.afterSeconds);
            && FiredBy(id, d, ttlSeconds, tick) == (if due then Some(0) else None)
            && (!due ==> TickGate(id, d, ttlSeconds, tick).row == d.row)
  {
    assert ExpireRow(d.row, tick.expiry, ttlSeconds) == d.row;
    ScanOfOne(id, d.row, t, tick.now, tick.io, d.armed);
  }

  lemma RestIsAlike(ticks: seq<Tick>)
    requires |ticks| > 0 && Ordered(ticks) && WritesSucceed(ticks)
    ensures Ordered(ticks[1..]) && WritesSucceed(ticks[1..])
  {
    assert forall i :: 0 <= i < |ticks[1..]| ==> ticks[1..][i] == ticks[i + 1];
  }

  lemma NoWindowLeft(ticks: seq<Tick>, from: int, until: int, at: nat)
    requires Ordered(ticks) && |ticks| > 0 && ticks[0].expiry > until
    ensures FirstInWindow(ticks, from, until, at) == None
  {
    assert forall i :: 0 <= i < |ticks| ==> ticks[i].expiry >= ticks[0].expiry;
    FoundIffInWindow(ticks, from, until, at);
  }

  /** A tick before the time to live ends either fires within the window, or leaves the gate as it was for the rest. */
  lemma FirstTickDecides(id: string, d: Standing, ttlSeconds: int, t: Transition, ticks: seq<Tick>, at: nat)
    returns (next: Standing)
    requires |ticks| > 0 && Pending(d.row, t) && ticks[0].io(0).writeOk
    requires ticks[0].expiry <= d.row.lastSeen.value + Ttl(d.row, ttlSeconds)
    ensures
      var from := d.row.lastSeen.value + AfterMicros(t.afterSeconds);
      var until := d.row.lastSeen.value + Ttl(d.row, ttlSeconds);
      FirstFiring(id, d, ttlSeconds, ticks, at) ==
      if InWindow(ticks[0], from, until) then Some(at) else FirstFiring(id, next, ttlSeconds, ticks[1..], at + 1)
    ensures next.row == d.row
  {
    TickOfPending(id, d, ttlSeconds, t, ticks[0]);
    next := TickGate(id, d, ttlSeconds, ticks[0]);
    if FiredBy(id, d, ttlSeconds, ticks[0]).Some? {
      next := d;
    }
  }

  /** Expiry runs before the check in every tick, so the transition fires in the first tick that falls
      between its deadline and the end of the gate's time to live, and never if no tick does. */
  lemma {:induction false} SilentGateFiresInTheWindow(id: string, d: Standing, ttlSeconds: int, t: Transition,
                                                      ticks: seq<Tick>, at: nat)
    requires Pending(d.row, t) && Ordered(ticks) && WritesSucceed(ticks)
    ensures
      var lastSeen := d.row.lastSeen.value;
      FirstFiring(id, d, ttlSeconds, ticks, at) ==
      FirstInWindow(ticks, lastSeen + AfterMicros(t.afterSeconds), lastSeen + Ttl(d.row, ttlSeconds), at)
    decreases |ticks|
  {
    if |ticks| > 0 {
      var from := d.row.lastSeen.value + AfterMicros(t.afterSeconds);
      var until := d.row.lastSeen.value + Ttl(d.row, ttlSeconds);
      if ticks[0].expiry > until {
        NoWindowLeft(ticks, from, until, at);
        ExpiredGateNeverFires(id, d, ttlSeconds, t, ticks, at);
      } else {
        var next := FirstTickDecides(id, d, ttlSeconds, t, ticks, at);
        if !InWindow(ticks[0], from, until) {
          RestIsAlike(ticks);
          SilentGateFiresInTheWindow(id, next, ttlSeconds, t, ticks[1..], at + 1);
        }
      }
    }
  }

  lemma {:induction false} ExpiredGateNeverFires(id: string, d: Standing, ttlSeconds: int, t: Transition,
                                                 ticks: seq<Tick>, at: nat)
    requires d.row.lastSeen.Some? && d.row.transitions == [t] && !t.persistOnChange && t.from != UNRESPONSIVE
    requires d.row.status == UNRESPONSIVE || (|ticks| > 0 && Expired(d.row, ticks[0].expiry, ttlSeconds))
    ensures FirstFiring(id, d, ttlSeconds, ticks, at) == None
    decreases |ticks|
  {
    if |ticks| > 0 {
      var row := ExpireRow(d.row, ticks[0].expiry, ttlSeconds);
      ScanOfOne(id, row, t, ticks[0].now, ticks[0].io, d.armed);
      ExpiredGateNeverFires(id, TickGate(id, d, ttlSeconds, ticks[0]), ttlSeconds, t, ticks[1..], at + 1);
    }
  }

  /** No check comes later than this after the sweep of its own tick. */
  ghost predicate Lags(ticks: seq<Tick>, lag: int) {
    forall i :: 0 <= i < |ticks| ==> ticks[i].now <= ticks[i].expiry + lag
  }

  /** A delay longer than the time to live, by more than a check lags its own expiry, is never honoured,
      whichever writes fail. */
  lemma {:induction false} LongDelayNeverFires(id: string, d: Standing, ttlSeconds: int, t: Transition,
                                               ticks: seq<Tick>, lag: int, at: nat)
    requires Pending(d.row, t) && Lags(ticks, lag)
    requires AfterMicros(t.afterSeconds) > Ttl(d.row, ttlSeconds) + lag
    ensures FirstFiring(id, d, ttlSeconds, ticks, at) == None
    decreases |ticks|
  {
    if |ticks| > 0 {
      if Expired(d.row, ticks[0].expiry, ttlSeconds) {
        ExpiredGateNeverFires(id, d, ttlSeconds, t, ticks, at);
      } else {
        assert ExpireRow(d.row, ticks[0].expiry, ttlSeconds) == d.row;
        ScanOfOne(id, d.row, t, ticks[0].now, ticks[0].io, d.armed);
        LongDelayNeverFires(id, TickGate(id, d, ttlSeconds, ticks[0]), ttlSeconds, t, ticks[1..], lag, at + 1);
      }
    }
  }

  /** A delay is honoured under no sequence of ticks exactly if it exceeds the time to live and the lag together. */
  lemma NeverFiresIffBeyondLag(id: string, d: Standing, ttlSeconds: int, t: Transition, lag: nat)
    requires Pending(d.row, t)
    ensures (forall ticks :: Lags(ticks, lag) ==> FirstFiring(id, d, ttlSeconds, ticks, 0) == None)
      <==> AfterMicros(t.afterSeconds) > Ttl(d.row, ttlSeconds) + lag
  {
    if AfterMicros(t.afterSeconds) > Ttl(d.row, ttlSeconds) + lag {
      forall ticks | Lags(ticks, lag)
        ensures FirstFiring(id, d, ttlSeconds, ticks, 0) == None
      {
        LongDelayNeverFires(id, d, ttlSeconds, t, ticks, lag, 0);
      }
    } else {
      var end := d.row.lastSeen.value + Ttl(d.row, ttlSeconds);
      var ticks := [Tick(end, end + lag, k => Io(true, true, true, true, end + lag))];
      TickOfPending(id, d, ttlSeconds, t, ticks[0]);
      assert Lags(ticks, lag) && FirstFiring(id, d, ttlSeconds, ticks, 0) == Some(0);
    }
  }

  /** One tick after the other, each sweeping before it checks, no check later than one gap after the last, and
      every write succeeding. */
  ghost predicate Regular(ticks: seq<Tick>, last: int, gap: int)
    decreases |ticks|
  {
    |ticks| == 0 ||
    (&& last <= ticks[0].expiry <= ticks[0].now <= last + gap
     && ticks[0].io(0).writeOk
     && Regular(ticks[1..], ticks[0].now, gap))
  }

  lemma {:induction false} RegularTicksAreOrdered(ticks: seq<Tick>, last: int, gap: int)
    requires Regular(ticks, last, gap)
    ensures Ordered(ticks) && WritesSucceed(ticks) && forall i :: 0 <= i < |ticks| ==> last <= ticks[i].expiry
    decreases |ticks|
  {
    if |ticks| > 0 {
      RegularTicksAreOrdered(ticks[1..], ticks[0].now, gap);
      assert forall i :: 0 < i < |ticks| ==> ticks[i] == ticks[1..][i - 1];
    }
  }

  lemma {:induction false} RegularTicksHitWindows(ticks: seq<Tick>, last: int, gap: int, from: int, until: int, at: nat)
    requires Regular(ticks, last, gap) && last < from && from - 1 + gap <= until
    requires exists i :: 0 <= i < |ticks| && from <= ticks[i].now
    ensures FirstInWindow(ticks, from, until, at).Some?
    decreases |ticks|
  {
    if ticks[0].now < from {
      var i :| 0 <= i < |ticks| && from <= ticks[i].now;
      assert ticks[1..][i - 1] == ticks[i];
      RegularTicksHitWindows(ticks[1..], ticks[0].now, gap, from, until, at + 1);
    }
  }

  /** A delay that leaves room for one tick before the time to live ends is always honoured. Even an overflowing
      one is: it only comes due earlier. */
  lemma ShortDelayAlwaysFires(id: string, d: Standing, ttlSeconds: int, t: Transition, ticks: seq<Tick>, gap: int)
    requires Pending(d.row, t) && Regular(ticks, d.row.lastSeen.value, gap)
    requires 0 < t.afterSeconds && t.afterSeconds * SECOND + gap <= Ttl(d.row, ttlSeconds)
    requires exists i :: 0 <= i < |ticks| && d.row.lastSeen.value + t.afterSeconds * SECOND <= ticks[i].now
    ensures FirstFiring(id, d, ttlSeconds, ticks, 0).Some?
  {
    var lastSeen := d.row.lastSeen.value;
    var late, end := lastSeen + t.afterSeconds * SECOND, lastSeen + Ttl(d.row, ttlSeconds);
    AfterMicrosIsExactUpToTheLimit(t.afterSeconds);
    RegularTicksAreOrdered(ticks, lastSeen, gap);
    RegularTicksHitWindows(ticks, lastSeen, gap, late, end, 0);
    FoundIffInWindow(ticks, late, end, 0);
    FoundIffInWindow(ticks, lastSeen + AfterMicros(t.afterSeconds), end, 0);
    var i :| 0 <= i < |ticks| && InWindow(ticks[i], late, end);
    assert InWindow(ticks[i], lastSeen + AfterMicros(t.afterSeconds), end);
    SilentGateFiresInTheWindow(id, d, ttlSeconds, t, ticks, 0);
  }

  /** Ticks as sparse as the gap allows, the last of them at the target. */
  function SparseTicks(last: int, target: int, gap: nat): (ticks: seq<Tick>)
    requires 0 < gap && last <= target
    ensures |ticks| > 0
    decreases target - last
  {
    if target - last <= gap then [TickAt(target)] else [TickAt(last + gap)] + SparseTicks(last + gap, target, gap)
  }

  function TickAt(at: int): Tick {
    Tick(at, at, k => Io(true, true, true, true, at))
  }

  lemma {:induction false} SparseTicksAreRegular(last: int, target: int, gap: nat)
    requires 0 < gap && last <= target
    ensures
      var ticks := SparseTicks(last, target, gap);
      && Regular(ticks, last, gap)
      && ticks[|ticks| - 1] == TickAt(target)
      && (forall i :: 0 <= i < |ticks| ==> ticks[i] == TickAt(ticks[i].now) && ticks[i].now <= target)
    decreases target - last
  {
    var ticks := SparseTicks(last, target, gap);
    if target - last > gap {
      SparseTicksAreRegular(last + gap, target, gap);
      assert ticks[1..] == SparseTicks(last + gap, target, gap);
    }
  }

  lemma {:induction false} RegularGoesOn(ticks: seq<Tick>, last: int, gap: int, at: int)
    requires Regular(ticks, last, gap) && |ticks| > 0
    requires ticks[|ticks| - 1].now <= at <= ticks[|ticks| - 1].now + gap
    ensures Regular(ticks + [TickAt(at)], last, gap)
    decreases |ticks|
  {
    var more := ticks + [TickAt(at)];
    assert more[1..] == ticks[1..] + [TickAt(at)];
    if |ticks| > 1 {
      RegularGoesOn(ticks[1..], ticks[0].now, gap, at);
    } else {
      assert more[1..][1..] == [];
    }
  }

  /** With delay and gap too long for the time to live, regular ticks can straddle the window. */
  lemma SparseTicksMissTheWindow(last: int, gap: nat, from: int, until: int) returns (ticks: seq<Tick>)
    requires 0 < gap && last < from && from - 1 + gap > until
    ensures Regular(ticks, last, gap) && exists i :: 0 <= i < |ticks| && from <= ticks[i].now
    ensures forall i :: 0 <= i < |ticks| ==> !InWindow(ticks[i], from, until)
  {
    var before := SparseTicks(last, from - 1, gap);
    SparseTicksAreRegular(last, from - 1, gap);
    RegularGoesOn(before, last, gap, from - 1 + gap);
    ticks := before + [TickAt(from - 1 + gap)];
    assert from <= ticks[|before|].now;
  }

  /** Regular ticks that go on past the delay fire the transition. */
  ghost predicate FiresUnder(id: string, d: Standing, ttlSeconds: int, ticks: seq<Tick>, gap: int, delay: int)
    requires d.row.lastSeen.Some?
  {
    var last := d.row.lastSeen.value;
    Regular(ticks, last, gap) && (exists i :: 0 <= i < |ticks| && last + delay <= ticks[i].now)
    ==> FirstFiring(id, d, ttlSeconds, ticks, 0).Some?
  }

  /** All regular ticks that go on long enough fire a transition exactly if its delay and one gap fit into the time
      to live, but for the one microsecond by which the tick before the deadline must miss it. */
  lemma AlwaysFiresIffRoomForATick(id: string, d: Standing, ttlSeconds: int, t: Transition, gap: nat)
    requires Pending(d.row, t) && 0 < t.afterSeconds <= MAX_AFTER_SECONDS && 0 < gap
    ensures (forall ticks :: FiresUnder(id, d, ttlSeconds, ticks, gap, t.afterSeconds * SECOND))
      <==> t.afterSeconds * SECOND + gap <= Ttl(d.row, ttlSeconds) + 1
  {
    var last, delay := d.row.lastSeen.value, t.afterSeconds * SECOND;
    var from, until := last + delay, last + Ttl(d.row, ttlSeconds);
    AfterMicrosIsExactUpToTheLimit(t.afterSeconds);
    if delay + gap <= Ttl(d.row, ttlSeconds) + 1 {
      forall ticks: seq<Tick>
        ensures FiresUnder(id, d, ttlSeconds, ticks, gap, delay)
      {
        if Regular(ticks, last, gap) && exists i :: 0 <= i < |ticks| && from <= ticks[i].now {
          RegularTicksAreOrdered(ticks, last, gap);
          RegularTicksHitWindows(ticks, last, gap, from, until, 0);
          SilentGateFiresInTheWindow(id, d, ttlSeconds, t, ticks, 0);
        }
      }
    } else {
      var ticks := SparseTicksMissTheWindow(last, gap, from, until);
      RegularTicksAreOrdered(ticks, last, gap);
      FoundIffInWindow(ticks, from, until, 0);
      SilentGateFiresInTheWindow(id, d, ttlSeconds, t, ticks, 0);
      assert !FiresUnder(id, d, ttlSeconds, ticks, gap, delay);
    }
  }

  // ---------- the displayed status ----------

  /** The stored row once every tick up to this instant has run. */
  function RowAt(id: string, d: Standing, ttlSeconds: int, ticks: seq<Tick>, now: int): Row
    decreases |ticks|
  {
    if |ticks| == 0 then d.row
    else
      var d' := if ticks[0].expiry <= now then TickGate(id, d, ttlSeconds, ticks[0]) else d;
      RowAt(id, d', ttlSeconds, ticks[1..], now)
  }

  function Displayed(id: string, d: Standing, ttlSeconds: int, ticks: seq<Tick>, now: int): string {
    EffectiveStatus(RowAt(id, d, ttlSeconds, ticks, now), now)
  }

  ghost predicate SweptBetween(ticks: seq<Tick>, from: int, until: int) {
    exists i :: 0 <= i < |ticks| && from < ticks[i].expiry <= until
  }

  /** Some sweep ran in the gap before this instant. */
  ghost predicate SweptWithin(ticks: seq<Tick>, gap: int, t: int) {
    SweptBetween(ticks, t - gap, t)
  }

  lemma {:induction false} SilentRow(id: string, d: Standing, ttlSeconds: int, ticks: seq<Tick>, now: int)
    requires d.row.lastSeen.Some? && d.row.transitions == [] && d.row.status != UNKNOWN && d.row.status != OFFLINE
    ensures var swept := SweptBetween(ticks, d.row.lastSeen.value + Ttl(d.row, ttlSeconds), now);
            RowAt(id, d, ttlSeconds, ticks, now) == if swept then d.row.(status := UNRESPONSIVE) else d.row
    decreases |ticks|
  {
    if |ticks| > 0 {
      var end := d.row.lastSeen.value + Ttl(d.row, ttlSeconds);
      var d' := if ticks[0].expiry <= now then TickGate(id, d, ttlSeconds, ticks[0]) else d;
      SilentRow(id, d', ttlSeconds, ticks[1..], now);
      assert forall i :: 0 < i < |ticks| ==> ticks[i] == ticks[1..][i - 1];
      assert SweptBetween(ticks, end, now) <==> end < ticks[0].expiry <= now || SweptBetween(ticks[1..], end, now);
    }
  }

  /** How far a displayed status is along: as stored, unresponsive, offline. */
  function Stage(stored: string, shown: string): nat {
    if shown == stored then 0 else if shown == UNRESPONSIVE then 1 else 2
  }

  /** A silent gate without transitions shows exactly: offline after five minutes, otherwise unresponsive
      once a sweep has come after its time to live, otherwise what it last reported. */
  lemma SilentGateDisplay(id: string, d: Standing, ttlSeconds: int, ticks: seq<Tick>, now: int)
    requires d.row.lastSeen.Some? && d.row.transitions == [] && !Exempt(d.row.status)
    ensures var lastSeen := d.row.lastSeen.value;
            Displayed(id, d, ttlSeconds, ticks, now) ==
            if now > lastSeen + OFFLINE_THRESHOLD then OFFLINE
            else if SweptBetween(ticks, lastSeen + Ttl(d.row, ttlSeconds), now) then UNRESPONSIVE
            else d.row.status
  {
    SilentRow(id, d, ttlSeconds, ticks, now);
  }

  /** With a sweep in every interval of one gap, and time to live plus gap within five minutes, the display goes
      stored, unresponsive no later than time to live plus gap, offline after five minutes, and never back. */
  lemma DisplayOnlyMovesOn(id: string, d: Standing, ttlSeconds: int, ticks: seq<Tick>, gap: int, now: int, later: int)
    requires d.row.lastSeen.Some? && d.row.transitions == [] && !Exempt(d.row.status) && now <= later
    requires
      var end := d.row.lastSeen.value + Ttl(d.row, ttlSeconds);
      forall t :: end + gap < t <= later ==> SweptWithin(ticks, gap, t)
    requires Ttl(d.row, ttlSeconds) + gap <= OFFLINE_THRESHOLD && gap >= 0
    ensures var shown := Displayed(id, d, ttlSeconds, ticks, now);
            var shownLater := Displayed(id, d, ttlSeconds, ticks, later);
            var silence := now - d.row.lastSeen.value;
            && Stage(d.row.status, shown) <= Stage(d.row.status, shownLater)
            && (silence <= Ttl(d.row, ttlSeconds) ==> shown == d.row.status)
            && (Ttl(d.row, ttlSeconds) + gap < silence <= OFFLINE_THRESHOLD ==> shown == UNRESPONSIVE)
            && (shown == OFFLINE <==> silence > OFFLINE_THRESHOLD)
  {
    SilentGateDisplay(id, d, ttlSeconds, ticks, now);
    SilentGateDisplay(id, d, ttlSeconds, ticks, later);
    var end := d.row.lastSeen.value + Ttl(d.row, ttlSeconds);
    if end + gap < now {
      assert SweptWithin(ticks, gap, now);
    }
    assert SweptBetween(ticks, end, now) ==> SweptBetween(ticks, end, later);
  }
}
