/** Persistent transitions: what an armed one promises, and exactly which lists let it keep the promise. */
module GateArming {
  import opened Prelude
  import opened GateRow
  import opened GateTtl
  import opened GateRuns

  ghost predicate Reliable(io: nat -> Io) {
    forall k :: io(k).setOk && io(k).getOk && io(k).delOk && io(k).writeOk
  }

  predicate Shares(id: string, ts: seq<Transition>, j: nat, k: nat) {
    j < |ts| && k < |ts| && Key(id, ts[j]) == Key(id, ts[k])
  }

  function Delay(t: Transition): int {
    AfterMicros(t.afterSeconds)
  }

  /** No later-listed transition under the key comes due before this one and all listed before it. */
  ghost predicate Precedes(id: string, ts: seq<Transition>, j: nat, k: nat)
    requires j < |ts| && k < |ts|
  {
    exists i :: 0 <= i <= k && Shares(id, ts, i, k) && Delay(ts[i]) <= Delay(ts[j])
  }

  /** Everything under the transition's key starts from its status, is persistent, and if listed later does
      not come due first. */
  ghost predicate Unrivalled(id: string, ts: seq<Transition>, k: nat)
    requires k < |ts|
  {
    forall j :: 0 <= j < |ts| && Shares(id, ts, j, k) ==>
      ts[j].from == ts[k].from && ts[j].persistOnChange && (j > k ==> Precedes(id, ts, j, k))
  }

  // ---------- one pass ----------

  /** Whatever under the transition's key has come due is read, consumed and written. */
  ghost predicate Answered(id: string, ts: seq<Transition>, k: nat, now: int, io: nat -> Io, armed: Armed)
    requires k < |ts|
  {
    var v := Stored(armed, Key(id, ts[k]));
    forall j :: 0 <= j < |ts| && Shares(id, ts, j, k) && v.Some? && now >= v.value + Delay(ts[j]) ==>
      io(j).getOk && io(j).delOk && io(j).writeOk
  }

  /** A pass by which an armed transition can be judged: the gate has left From, no call that its firing takes fails,
      and no transition listed earlier fires. */
  ghost predicate Fair(id: string, g: Row, k: nat, now: int, io: nat -> Io, armed: Armed) {
    && g.lastSeen.Some? && k < |g.transitions| && g.status != g.transitions[k].from
    && Answered(id, g.transitions, k, now, io, armed)
    && var r := ScanGate(id, g, now, io, armed); r.fired.Some? ==> k <= r.fired.value
  }

  /** The timer is due: it fires now and is consumed. Otherwise it stays as it is. */
  ghost predicate Punctual(id: string, g: Row, k: nat, now: int, io: nat -> Io, armed: Armed)
    requires g.lastSeen.Some? && k < |g.transitions|
  {
    var key, r := Key(id, g.transitions[k]), ScanGate(id, g, now, io, armed);
    var due := Stored(armed, key).Some? && now >= Stored(armed, key).value + Delay(g.transitions[k]);
    && (r.fired == Some(k) <==> due)
    && Stored(r.armed, key) == if due then None else Stored(armed, key)
  }

  /** As long as nothing under the key has come due, its turns leave it alone. */
  lemma {:induction false} TimerWaits(id: string, g: Row, k: nat, n: nat, now: int, io: nat -> Io, armed: Armed)
    requires g.lastSeen.Some? && k < |g.transitions| && n <= |g.transitions| && g.status != g.transitions[k].from
    requires
      var ts, v := g.transitions, Stored(armed, Key(id, g.transitions[k]));
      forall j :: 0 <= j < n && Shares(id, ts, j, k) ==>
        ts[j].from == ts[k].from && ts[j].persistOnChange && (v.Some? ==> now < v.value + Delay(ts[j]))
    ensures
      var key := Key(id, g.transitions[k]);
      && StoredAt(id, g, n, now, io, armed, key) == Stored(armed, key)
      && (forall j :: 0 <= j < n && Shares(id, g.transitions, j, k) ==> !Takes(id, g, j, now, io, armed))
    decreases n
  {
    if n > 0 {
      TimerWaits(id, g, k, n - 1, now, io, armed);
      assert Shares(id, g.transitions, n - 1, k) || Key(id, g.transitions[n - 1]) != Key(id, g.transitions[k]);
    }
  }

  /** The first of the sharing transitions, in list order up to n, whose delay has passed. */
  lemma {:induction false} FirstPassed(id: string, ts: seq<Transition>, k: nat, n: nat, age: int)
    returns (m: Option<nat>)
    requires k < |ts| && n <= |ts|
    ensures m.Some? ==> m.value < n && Shares(id, ts, m.value, k) && Delay(ts[m.value]) <= age
    ensures forall j :: 0 <= j < (if m.Some? then m.value else n) && Shares(id, ts, j, k) ==> age < Delay(ts[j])
    decreases n
  {
    if n == 0 {
      m := None;
    } else {
      m := FirstPassed(id, ts, k, n - 1, age);
      if m.None? && Shares(id, ts, n - 1, k) && Delay(ts[n - 1]) <= age {
        m := Some(n - 1);
      }
    }
  }

  /** In a fair pass an unrivalled transition is punctual. */
  lemma UnrivalledIsPunctual(id: string, g: Row, k: nat, now: int, io: nat -> Io, armed: Armed)
    requires Fair(id, g, k, now, io, armed) && Unrivalled(id, g.transitions, k)
    ensures Punctual(id, g, k, now, io, armed)
  {
    var ts, key, r := g.transitions, Key(id, g.transitions[k]), ScanGate(id, g, now, io, armed);
    var v := Stored(armed, key);
    ScanTakesTheFirst(id, g, now, io, armed);
    assert Shares(id, ts, k, k);
    if v.None? {
      TimerWaits(id, g, k, |ts|, now, io, armed);
      TimerWaits(id, g, k, Turns(g, r), now, io, armed);
    } else {
      var age := now - v.value;
      var m := FirstPassed(id, ts, k, |ts|, age);
      assert forall j :: k < j < |ts| && Shares(id, ts, j, k) ==> Precedes(id, ts, j, k);
      if m.None? {
        TimerWaits(id, g, k, |ts|, now, io, armed);
        TimerWaits(id, g, k, Turns(g, r), now, io, armed);
      } else {
        TimerWaits(id, g, k, m.value, now, io, armed);
        assert Takes(id, g, m.value, now, io, armed);
        assert r.fired.Some? && r.fired.value <= m.value;
      }
    }
  }

  /** For a transition with a key of its own, no less will do: it is punctual exactly if, once due, its timer is
      read and consumed and its status written. */
  lemma PunctualIffAnswered(id: string, g: Row, k: nat, now: int, io: nat -> Io, armed: Armed)
    requires g.lastSeen.Some? && k < |g.transitions| && g.status != g.transitions[k].from
    requires g.transitions[k].persistOnChange
    requires forall j :: 0 <= j < |g.transitions| && j != k ==> Key(id, g.transitions[j]) != Key(id, g.transitions[k])
    requires var r := ScanGate(id, g, now, io, armed); r.fired.Some? ==> k <= r.fired.value
    ensures Punctual(id, g, k, now, io, armed) <==> Answered(id, g.transitions, k, now, io, armed)
  {
    OwnKeyActsAlone(id, g, k, now, io, armed);
    ScanTakesTheFirst(id, g, now, io, armed);
    assert Shares(id, g.transitions, k, k);
  }

  // ---------- otherwise it need not be ----------

  /** Delays of a second at least: what validation asks for, short of an int64 overflow. */
  ghost predicate Honest(ts: seq<Transition>) {
    forall t :: t in ts ==> SECOND <= Delay(t)
  }

  lemma {:induction false} FreshStatus(ts: seq<Transition>) returns (status: string)
    ensures forall t :: t in ts ==> |t.from| < |status|
    decreases |ts|
  {
    if |ts| == 0 {
      status := "";
    } else {
      var rest := FreshStatus(ts[1..]);
      status := rest + ts[0].from + "-";
      assert forall t :: t in ts ==> t == ts[0] || t in ts[1..];
    }
  }

  /** Within a second of every timer nothing is due. */
  lemma {:induction false} YoungTimersWait(id: string, g: Row, n: nat, now: int, io: nat -> Io, armed: Armed,
                                           key: string)
    requires g.lastSeen.Some? && 0 <= g.lastSeen.value && n <= |g.transitions|
    requires now < SECOND && Honest(g.transitions) && forall k :: k in armed ==> 0 <= armed[k]
    ensures var stored := StoredAt(id, g, n, now, io, armed, key); stored.Some? ==> 0 <= stored.value
    decreases n
  {
    if n > 0 {
      YoungTimersWait(id, g, n - 1, now, io, armed, key);
    }
  }

  lemma YoungTimersDoNotFire(id: string, g: Row, now: int, io: nat -> Io, armed: Armed)
    requires g.lastSeen.Some? && 0 <= g.lastSeen.value
    requires now < SECOND && Honest(g.transitions) && forall k :: k in armed ==> 0 <= armed[k]
    ensures ScanGate(id, g, now, io, armed).fired.None?
  {
    ScanTakesTheFirst(id, g, now, io, armed);
    forall j | 0 <= j < |g.transitions|
      ensures !Takes(id, g, j, now, io, armed)
    {
      assert g.transitions[j] in g.transitions;
      YoungTimersWait(id, g, j, now, io, armed, Key(id, g.transitions[j]));
    }
  }

  /** Once a timer has lost its value it does not get it back from a reading at another time. */
  lemma {:induction false} LostForThePass(id: string, g: Row, m: nat, n: nat, now: int, io: nat -> Io, armed: Armed,
                                          key: string, v: int)
    requires g.lastSeen.Some? && g.lastSeen.value != v && m <= n <= |g.transitions|
    requires StoredAt(id, g, m, now, io, armed, key) != Some(v)
    ensures StoredAt(id, g, n, now, io, armed, key) != Some(v)
    decreases n
  {
    if m < n {
      LostForThePass(id, g, m, n - 1, now, io, armed, key, v);
    }
  }

  /** In a status nothing starts from, a pass starts no timer. */
  lemma {:induction false} NothingStarts(id: string, g: Row, n: nat, now: int, io: nat -> Io, armed: Armed, key: string)
    requires g.lastSeen.Some? && n <= |g.transitions| && forall t :: t in g.transitions ==> t.from != g.status
    ensures
      var stored := StoredAt(id, g, n, now, io, armed, key); stored.None? || stored == Stored(armed, key)
    decreases n
  {
    if n > 0 {
      assert g.transitions[n - 1] in g.transitions;
      NothingStarts(id, g, n - 1, now, io, armed, key);
    }
  }

  /** With one timer, started at 0 and not yet due, a fair reading of the gate at now in this status, last seen
      at this instant, takes the timer away. */
  ghost predicate Breaks(id: string, ts: seq<Transition>, k: nat, status: string, at: int, now: int)
    requires k < |ts|
  {
    forall io: nat -> Io :: Reliable(io) ==>
      var g, armed := Row(status, Some(at), map[], None, ts), map[Key(id, ts[k]) := 0];
      TakesAway(id, g, k, now, io, armed)
  }

  ghost predicate TakesAway(id: string, g: Row, k: nat, now: int, io: nat -> Io, armed: Armed) {
    && Fair(id, g, k, now, io, armed)
    && var key, r := Key(id, g.transitions[k]), ScanGate(id, g, now, io, armed);
    && Stored(armed, key).Some?
    && now < Stored(armed, key).value + Delay(g.transitions[k])
    && r.fired != Some(k)
    && Stored(r.armed, key) != Stored(armed, key)
  }

  /** A rival that cancels the timer, or starts it anew. */
  lemma MeddlerBreaks(id: string, ts: seq<Transition>, k: nat, j: nat, status: string)
    requires Honest(ts) && Shares(id, ts, j, k) && status != ts[k].from
    requires if ts[j].persistOnChange then status == ts[j].from else status != ts[j].from
    ensures Breaks(id, ts, k, status, 1, 1)
  {
    var key := Key(id, ts[k]);
    var g, armed := Row(status, Some(1), map[], None, ts), map[key := 0];
    assert ts[j] in ts && ts[k] in ts;
    forall io: nat -> Io | Reliable(io)
      ensures TakesAway(id, g, k, 1, io, armed)
    {
      YoungTimersDoNotFire(id, g, 1, io, armed);
      ScanTakesTheFirst(id, g, 1, io, armed);
      YoungTimersWait(id, g, j, 1, io, armed, key);
      assert StoredAt(id, g, j + 1, 1, io, armed, key) != Some(0);
      LostForThePass(id, g, j + 1, |ts|, 1, io, armed, key, 0);
    }
  }

  /** At this age of the timer the delay has passed for the m-th transition, and for no other one before it under
      the key. */
  ghost predicate ComesDueFirst(id: string, ts: seq<Transition>, m: nat, k: nat, age: int)
    requires m < |ts| && k < |ts|
  {
    Delay(ts[m]) <= age && forall i :: 0 <= i < m && Shares(id, ts, i, k) ==> age < Delay(ts[i])
  }

  /** A rival listed later that is the first to come due. */
  lemma EarlyRivalBreaks(id: string, ts: seq<Transition>, k: nat, m: nat, status: string, now: int)
    requires k < m && Shares(id, ts, m, k) && (forall t :: t in ts ==> t.from != status)
    requires forall i :: 0 <= i < |ts| && Shares(id, ts, i, k) ==> ts[i].from == ts[k].from && ts[i].persistOnChange
    ensures ComesDueFirst(id, ts, m, k, now) ==> Breaks(id, ts, k, status, 0, now)
  {
    if !ComesDueFirst(id, ts, m, k, now) {
      return;
    }
    var key := Key(id, ts[k]);
    var g, armed := Row(status, Some(0), map[], None, ts), map[key := 0];
    assert ts[k] in ts && Shares(id, ts, k, k);
    forall io: nat -> Io | Reliable(io)
      ensures TakesAway(id, g, k, now, io, armed)
    {
      TimerWaits(id, g, k, m, now, io, armed);
      assert ts[m] in ts && Takes(id, g, m, now, io, armed);
      forall i | 0 <= i < m
        ensures !Takes(id, g, i, now, io, armed)
      {
        assert ts[i] in ts;
        if Key(id, ts[i]) != key {
          NothingStarts(id, g, i, now, io, armed, Key(id, ts[i]));
        } else {
          assert Shares(id, ts, i, k);
        }
      }
      ScanTakesTheFirst(id, g, now, io, armed);
      assert ScanGate(id, g, now, io, armed).fired == Some(m);
    }
  }

  /** The transition's key is shared only by duplicates of its pair of statuses. */
  ghost predicate SameStart(id: string, ts: seq<Transition>, k: nat)
    requires k < |ts|
  {
    forall j :: 0 <= j < |ts| && Shares(id, ts, j, k) ==> ts[j].from == ts[k].from
  }

  /** A rivalled transition breaks its promise in some fair pass. */
  lemma RivalBreaks(id: string, ts: seq<Transition>, k: nat) returns (status: string, at: int, now: int)
    requires k < |ts| && Honest(ts) && !Unrivalled(id, ts, k)
    ensures 0 <= at <= now && Breaks(id, ts, k, status, at, now)
    ensures SameStart(id, ts, k) ==> forall t :: t in ts ==> t.from != status
  {
    var j :| 0 <= j < |ts| && Shares(id, ts, j, k) &&
      !(ts[j].from == ts[k].from && ts[j].persistOnChange && (j > k ==> Precedes(id, ts, j, k)));
    status := FreshStatus(ts);
    assert forall t :: t in ts ==> t.from != status;
    assert ts[j] in ts && ts[k] in ts;
    if i :| 0 <= i < |ts| && Shares(id, ts, i, k) && !ts[i].persistOnChange {
      assert ts[i] in ts;
      MeddlerBreaks(id, ts, k, i, status);
      at, now := 1, 1;
    } else if i :| 0 <= i < |ts| && Shares(id, ts, i, k) && ts[i].from != ts[k].from {
      status := ts[i].from;
      MeddlerBreaks(id, ts, k, i, status);
      at, now := 1, 1;
    } else {
      at, now := 0, Delay(ts[j]);
      var m := FirstPassed(id, ts, k, |ts|, now);
      assert m.Some? && k < m.value;
      EarlyRivalBreaks(id, ts, k, m.value, status, now);
    }
  }

  // ---------- runs ----------

  /** Every check of the gate reads this list and is fair. Anything else may happen. */
  ghost predicate Undisturbed(s: State, defaultTtl: int, es: seq<Event>, id: string, ts: seq<Transition>, k: nat)
    decreases |es|
  {
    |es| == 0 ||
    (&& Enabled(s, es[0])
     && (Reads(s, es[0], id) ==>
          var g := s.worker.pending[0].1;
          g.transitions == ts && Fair(id, g, k, s.worker.now, es[0].io, s.armed))
     && Undisturbed(Step(s, defaultTtl, es[0]), defaultTtl, es[1..], id, ts, k))
  }

  /** The positions at which the transition fires. */
  function Firings(s: State, defaultTtl: int, es: seq<Event>, id: string, k: nat, at: nat): seq<nat>
    decreases |es|
  {
    if |es| == 0 then [] else
      var rest := Firings(Step(s, defaultTtl, es[0]), defaultTtl, es[1..], id, k, at + 1);
      if Fires(s, es[0], id, k) then [at] + rest else rest
  }

  /** The position of the first check that reads the gate at or after the deadline. */
  function FirstReadFrom(s: State, defaultTtl: int, es: seq<Event>, id: string, deadline: int, at: nat): Option<nat>
    decreases |es|
  {
    if |es| == 0 then None
    else if Reads(s, es[0], id) && s.worker.now >= deadline then Some(at)
    else FirstReadFrom(Step(s, defaultTtl, es[0]), defaultTtl, es[1..], id, deadline, at + 1)
  }

  /** An armed transition fires at the first check at or after its deadline and only there, and its timer stays
      until then; one that is not armed does not fire. */
  ghost predicate Kept(s: State, defaultTtl: int, es: seq<Event>, id: string, ts: seq<Transition>, k: nat, at: nat)
    requires k < |ts|
  {
    var key := Key(id, ts[k]);
    var armedAt := Stored(s.armed, key);
    var fireAt :=
      if armedAt.None? then None else FirstReadFrom(s, defaultTtl, es, id, armedAt.value + Delay(ts[k]), at);
    && Firings(s, defaultTtl, es, id, k, at) == (if fireAt.Some? then [fireAt.value] else [])
    && Stored(Exec(s, defaultTtl, es).armed, key) == if fireAt.Some? then None else armedAt
  }

  function Anything(): Family {
    (id, ts) => true
  }

  /** A check of another gate leaves the timer alone. */
  lemma OtherChecksLeaveTimers(s: State, defaultTtl: int, e: Event, id: string, t: Transition)
    requires Inv(s, Anything()) && Enabled(s, e) && ':' !in id && !Reads(s, e, id)
    ensures Stored(Step(s, defaultTtl, e).armed, Key(id, t)) == Stored(s.armed, Key(id, t))
  {
    if AtCheck(s, e) {
      assert s.worker.pending[0] in s.worker.pending;
      var (id', g) := s.worker.pending[0];
      ScanLeavesOtherGatesAlone(id', g, s.worker.now, e.io, s.armed, id);
      assert Stored(HeadScan(s, e).armed, TransitionKey(id, t.from, t.to)) == Stored(s.armed, Key(id, t));
    }
  }

  /** The timer stays, unless this is the check that finds it due: then it fires and is consumed. */
  ghost predicate RightByTheTimer(s: State, defaultTtl: int, e: Event, id: string, t: Transition, k: nat) {
    var v, v' := Stored(s.armed, Key(id, t)), Stored(Step(s, defaultTtl, e).armed, Key(id, t));
    var due := Reads(s, e, id) && v.Some? && s.worker.now >= v.value + Delay(t);
    (Fires(s, e, id, k) <==> due) && v' == if due then None else v
  }

  /** An undisturbed event does right by an unrivalled transition's timer. */
  lemma ArmedStep(s: State, defaultTtl: int, e: Event, id: string, ts: seq<Transition>, k: nat)
    requires k < |ts| && ':' !in id && Unrivalled(id, ts, k) && Inv(s, Anything()) && Enabled(s, e)
    requires Reads(s, e, id) ==>
      var g := s.worker.pending[0].1; g.transitions == ts && Fair(id, g, k, s.worker.now, e.io, s.armed)
    ensures RightByTheTimer(s, defaultTtl, e, id, ts[k], k)
  {
    if Reads(s, e, id) {
      UnrivalledIsPunctual(id, s.worker.pending[0].1, k, s.worker.now, e.io, s.armed);
    } else {
      OtherChecksLeaveTimers(s, defaultTtl, e, id, ts[k]);
    }
  }

  /** Once an event has done right by the timer, a run that keeps the promise from there on keeps it altogether. */
  lemma KeptFromTheStart(s: State, defaultTtl: int, es: seq<Event>, id: string, ts: seq<Transition>, k: nat, at: nat)
    requires k < |ts| && |es| > 0
    requires RightByTheTimer(s, defaultTtl, es[0], id, ts[k], k)
    ensures Kept(Step(s, defaultTtl, es[0]), defaultTtl, es[1..], id, ts, k, at + 1) ==>
      Kept(s, defaultTtl, es, id, ts, k, at)
  {
  }

  /** Once armed with the time last seen, an unrivalled transition survives any other statuses, an unresponsive
      mark included, and keeps its promise. */
  lemma {:induction false} ArmedTransitionFiresOnce(s: State, defaultTtl: int, es: seq<Event>,
                                                    id: string, ts: seq<Transition>, k: nat, at: nat)
    requires k < |ts| && ':' !in id && Unrivalled(id, ts, k)
    requires Inv(s, Anything()) && Undisturbed(s, defaultTtl, es, id, ts, k)
    ensures Kept(s, defaultTtl, es, id, ts, k, at)
    decreases |es|
  {
    if |es| > 0 {
      ArmedStep(s, defaultTtl, es[0], id, ts, k);
      StepKeepsInv(s, defaultTtl, es[0], Anything());
      ArmedTransitionFiresOnce(Step(s, defaultTtl, es[0]), defaultTtl, es[1..], id, ts, k, at + 1);
      KeptFromTheStart(s, defaultTtl, es, id, ts, k, at);
    }
  }

  // ---------- exactly those lists ----------

  /** Whatever led up to it, an undisturbed run keeps the promise. */
  ghost predicate Honoured(defaultTtl: int, es: seq<Event>, es': seq<Event>, id: string, ts: seq<Transition>, k: nat)
    requires k < |ts|
  {
    Run(Init(), defaultTtl, es) && Undisturbed(Exec(Init(), defaultTtl, es), defaultTtl, es', id, ts, k)
    ==> Kept(Exec(Init(), defaultTtl, es), defaultTtl, es', id, ts, k, 0)
  }

  lemma TimerStarted(id: string, t: Transition, io: nat -> Io)
    requires t.persistOnChange && Delay(t) > 0 && Reliable(io)
    ensures
      var g := Row(t.from, Some(0), map[], None, [t]);
      ScanGate(id, g, 0, io, map[]) == Scan(map[Key(id, t) := 0], None)
  {
    var g := Row(t.from, Some(0), map[], None, [t]);
    ScanTakesOneTurn(id, g, 0, 0, io, map[]);
  }

  /** A run that arms a rivalled transition, and the fair check that then takes its timer away too early. */
  lemma RivalledRun(defaultTtl: int, id: string, ts: seq<Transition>, k: nat)
    returns (es: seq<Event>, s: State, e: Event)
    requires k < |ts| && ':' !in id && Honest(ts) && ts[k].persistOnChange && !Unrivalled(id, ts, k)
    ensures Reaches(defaultTtl, es, s) && Enabled(s, e) && Reads(s, e, id)
    ensures
      var g := s.worker.pending[0].1;
      g.transitions == ts && TakesAway(id, g, k, s.worker.now, e.io, s.armed)
    ensures SameStart(id, ts, k) ==> Stored(Step(s, defaultTtl, e).armed, Key(id, ts[k])) == None
  {
    var status, at, now := RivalBreaks(id, ts, k);
    var io := (i: nat) => Io(true, true, true, true, now);
    assert ts[k] in ts;
    TimerStarted(id, ts[k], io);
    es, s := FirstReport(defaultTtl, id, ts[k].from, [ts[k]]);
    es, s := SecondReport(defaultTtl, es, s, io, id, ts, status, at, now);
    e := Check(io);
    if SameStart(id, ts, k) {
      var g := s.worker.pending[0].1;
      ScanTakesTheFirst(id, g, now, io, s.armed);
      NothingStarts(id, g, Turns(g, HeadScan(s, e)), now, io, s.armed, Key(id, ts[k]));
    }
  }

  /** One event breaks a promise that is kept only if it is punctual. */
  lemma KeptOnceIsPunctual(s: State, defaultTtl: int, e: Event, id: string, ts: seq<Transition>, k: nat)
    requires k < |ts| && Reads(s, e, id)
    requires s.worker.pending[0].1.transitions == ts && s.worker.pending[0].1.lastSeen.Some?
    requires Kept(s, defaultTtl, [e], id, ts, k, 0)
    ensures Punctual(id, s.worker.pending[0].1, k, s.worker.now, e.io, s.armed)
  {
    var s', es := Step(s, defaultTtl, e), [e];
    assert es[1..] == [];
    assert Exec(s, defaultTtl, es) == Exec(s', defaultTtl, []) == s';
    assert Firings(s, defaultTtl, es, id, k, 0) ==
      if Fires(s, e, id, k) then [0] + Firings(s', defaultTtl, [], id, k, 1) else [];
    var armedAt := Stored(s.armed, Key(id, ts[k]));
    if armedAt.Some? {
      var deadline := armedAt.value + Delay(ts[k]);
      assert FirstReadFrom(s', defaultTtl, [], id, deadline, 1) == None;
      assert FirstReadFrom(s, defaultTtl, es, id, deadline, 0) == if s.worker.now >= deadline then Some(0) else None;
    }
  }

  /** Every armed run keeps the promise exactly if the transition is unrivalled. */
  lemma PromiseIsKeptIffUnrivalled(defaultTtl: int, id: string, ts: seq<Transition>, k: nat)
    requires k < |ts| && ':' !in id && Honest(ts) && ts[k].persistOnChange
    ensures (forall es, es' :: Honoured(defaultTtl, es, es', id, ts, k)) <==> Unrivalled(id, ts, k)
  {
    if Unrivalled(id, ts, k) {
      forall es, es'
        ensures Honoured(defaultTtl, es, es', id, ts, k)
      {
        var s := Exec(Init(), defaultTtl, es);
        if Run(Init(), defaultTtl, es) && Undisturbed(s, defaultTtl, es', id, ts, k) {
          RunKeepsInv(Init(), defaultTtl, es, Anything());
          ArmedTransitionFiresOnce(s, defaultTtl, es', id, ts, k, 0);
        }
      }
    } else {
      var es, s, e := RivalledRun(defaultTtl, id, ts, k);
      assert [e][1..] == [];
      assert Undisturbed(Step(s, defaultTtl, e), defaultTtl, [], id, ts, k);
      assert Undisturbed(s, defaultTtl, [e], id, ts, k);
      if Kept(s, defaultTtl, [e], id, ts, k, 0) {
        KeptOnceIsPunctual(s, defaultTtl, e, id, ts, k);
      }
      assert !Honoured(defaultTtl, es, [e], id, ts, k);
    }
  }

  /** No check of the gate finds it in a status that anything under the transition's key starts from. */
  ghost predicate Away(s: State, defaultTtl: int, es: seq<Event>, id: string, ts: seq<Transition>, k: nat)
    decreases |es|
  {
    |es| == 0 ||
    (&& Enabled(s, es[0])
     && (Reads(s, es[0], id) ==>
          var g := s.worker.pending[0].1;
          && g.transitions == ts
          && forall j :: 0 <= j < |ts| && Shares(id, ts, j, k) ==> ts[j].from != g.status)
     && Away(Step(s, defaultTtl, es[0]), defaultTtl, es[1..], id, ts, k))
  }

  lemma {:induction false} NothingWithoutTimer(id: string, g: Row, k: nat, n: nat, now: int, io: nat -> Io,
                                               armed: Armed)
    requires g.lastSeen.Some? && k < |g.transitions| && n <= |g.transitions|
    requires forall j :: 0 <= j < |g.transitions| && Shares(id, g.transitions, j, k) ==>
      g.transitions[j].from != g.status
    requires Stored(armed, Key(id, g.transitions[k])).None?
    ensures StoredAt(id, g, n, now, io, armed, Key(id, g.transitions[k])).None?
    decreases n
  {
    if n > 0 {
      NothingWithoutTimer(id, g, k, n - 1, now, io, armed);
      assert Shares(id, g.transitions, n - 1, k) || Key(id, g.transitions[n - 1]) != Key(id, g.transitions[k]);
    }
  }

  lemma {:induction false} GoneTimersNeverFire(s: State, defaultTtl: int, es: seq<Event>,
                                               id: string, ts: seq<Transition>, k: nat, at: nat)
    requires k < |ts| && ':' !in id && Inv(s, Anything()) && Away(s, defaultTtl, es, id, ts, k)
    requires Stored(s.armed, Key(id, ts[k])).None?
    ensures Firings(s, defaultTtl, es, id, k, at) == []
    decreases |es|
  {
    if |es| > 0 {
      var e := es[0];
      if Reads(s, e, id) {
        assert s.worker.pending[0] in s.worker.pending;
        var g := s.worker.pending[0].1;
        assert Shares(id, ts, k, k);
        ScanTakesTheFirst(id, g, s.worker.now, e.io, s.armed);
        NothingWithoutTimer(id, g, k, k, s.worker.now, e.io, s.armed);
        NothingWithoutTimer(id, g, k, Turns(g, HeadScan(s, e)), s.worker.now, e.io, s.armed);
      } else {
        OtherChecksLeaveTimers(s, defaultTtl, e, id, ts[k]);
      }
      StepKeepsInv(s, defaultTtl, e, Anything());
      GoneTimersNeverFire(Step(s, defaultTtl, e), defaultTtl, es[1..], id, ts, k, at + 1);
    }
  }

  /** Wherever duplicates of a pair rival a transition, a run can starve it: its timer is running and not yet due,
      one fair check later it is gone, and until the gate is back in From the transition never fires. */
  lemma DuplicatesStarve(defaultTtl: int, id: string, ts: seq<Transition>, k: nat)
    returns (es: seq<Event>, s: State, e: Event)
    requires k < |ts| && ':' !in id && Honest(ts) && ts[k].persistOnChange && SameStart(id, ts, k)
    requires !Unrivalled(id, ts, k)
    ensures Reaches(defaultTtl, es, s) && Enabled(s, e) && Reads(s, e, id)
    ensures
      var g := s.worker.pending[0].1;
      g.transitions == ts && TakesAway(id, g, k, s.worker.now, e.io, s.armed)
    ensures forall es', at :: Away(Step(s, defaultTtl, e), defaultTtl, es', id, ts, k) ==>
      Firings(Step(s, defaultTtl, e), defaultTtl, es', id, k, at) == []
  {
    es, s, e := RivalledRun(defaultTtl, id, ts, k);
    var s' := Step(s, defaultTtl, e);
    RunKeepsInv(Init(), defaultTtl, es, Anything());
    StepKeepsInv(s, defaultTtl, e, Anything());
    forall es', at | Away(s', defaultTtl, es', id, ts, k)
      ensures Firings(s', defaultTtl, es', id, k, at) == []
    {
      GoneTimersNeverFire(s', defaultTtl, es', id, ts, k, at);
    }
  }

  // ---------- arming ----------

  /** The turn sets the key, unless it is due. */
  predicate Sets(id: string, g: Row, j: nat, k: nat) {
    Shares(id, g.transitions, j, k) && g.transitions[j].persistOnChange && g.transitions[j].from == g.status
  }

  /** The turn deletes the key. */
  predicate Cancels(id: string, g: Row, j: nat, k: nat) {
    Shares(id, g.transitions, j, k) && !g.transitions[j].persistOnChange && g.transitions[j].from != g.status
  }

  /** After the last turn that set the key none cancelled it. */
  ghost predicate SetLast(id: string, g: Row, k: nat, n: nat) {
    exists m :: k <= m < n && Sets(id, g, m, k) && forall j :: m < j < n ==> !Cancels(id, g, j, k)
  }

  /** As long as nothing under the key fires, the time last seen is stored exactly if it was set last. */
  lemma {:induction false} SetLastIsStored(id: string, g: Row, k: nat, n: nat, now: int, io: nat -> Io, armed: Armed)
    requires g.lastSeen.Some? && k < n <= |g.transitions| && Reliable(io) && Sets(id, g, k, k)
    ensures (forall j :: k <= j < n && Shares(id, g.transitions, j, k) ==> !Takes(id, g, j, now, io, armed)) ==>
      var stored := StoredAt(id, g, n, now, io, armed, Key(id, g.transitions[k]));
      stored == if SetLast(id, g, k, n) then g.lastSeen else None
    decreases n
  {
    var j := n - 1;
    if j == k {
      assert SetLast(id, g, k, n);
    } else {
      SetLastIsStored(id, g, k, j, now, io, armed);
      assert Shares(id, g.transitions, j, k) || Key(id, g.transitions[j]) != Key(id, g.transitions[k]);
      if Sets(id, g, j, k) {
        assert SetLast(id, g, k, n);
      } else if !Cancels(id, g, j, k) && SetLast(id, g, k, j) {
        var m :| k <= m < j && Sets(id, g, m, k) && forall i :: m < i < j ==> !Cancels(id, g, i, k);
        assert forall i :: m < i < n ==> !Cancels(id, g, i, k);
        assert SetLast(id, g, k, n);
      }
    }
  }

  /** A pass that finds the gate in From before the deadline, so that it is not this transition that fires, nor
      one listed earlier; every call succeeds. */
  ghost predicate Sighted(id: string, g: Row, k: nat, now: int, io: nat -> Io, armed: Armed) {
    && g.lastSeen.Some? && k < |g.transitions| && g.status == g.transitions[k].from && Reliable(io)
    && var r := ScanGate(id, g, now, io, armed); r.fired.Some? ==> k < r.fired.value
  }

  /** Such a pass arms a persistent transition with the time last seen, exactly unless another transition under its
      key fires, or cancels the key after it was last set. */
  lemma SightingArms(id: string, g: Row, k: nat, now: int, io: nat -> Io, armed: Armed)
    requires Sighted(id, g, k, now, io, armed) && g.transitions[k].persistOnChange
    ensures
      var r := ScanGate(id, g, now, io, armed);
      Stored(r.armed, Key(id, g.transitions[k])) == g.lastSeen
      <==> !(r.fired.Some? && Shares(id, g.transitions, r.fired.value, k)) && SetLast(id, g, k, Turns(g, r))
  {
    var r := ScanGate(id, g, now, io, armed);
    ScanTakesTheFirst(id, g, now, io, armed);
    if r.fired.Some? && Shares(id, g.transitions, r.fired.value, k) {
      assert Stored(r.armed, Key(id, g.transitions[k])) == None;
    } else {
      SetLastIsStored(id, g, k, Turns(g, r), now, io, armed);
    }
  }

  /** Among statuses without a colon nothing cancels what a sighting sets. */
  lemma NothingCancelsAmongColonFree(id: string, g: Row, k: nat, n: nat)
    requires ':' !in id && ColonFree(g.transitions) && k < n <= |g.transitions| && Sets(id, g, k, k)
    ensures SetLast(id, g, k, n)
  {
    forall j | k < j < n
      ensures !Cancels(id, g, j, k)
    {
      var t, u := g.transitions[j], g.transitions[k];
      assert t in g.transitions && u in g.transitions;
      KeysOfGatesAreApart(id, t.from, t.to, id, u.from, u.to);
      if t.from + [':'] + t.to == u.from + [':'] + u.to {
        JoinIsUnique(':', t.from, t.to, u.from, u.to);
      }
    }
  }
}
