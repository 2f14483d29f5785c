/** Webhook polling: each round polls every due gate in its own goroutine, at most ten at a time. */
module PollPool {
  import opened Prelude
  import opened Payload

  const MAX_CONCURRENT := 10
  const DEFAULT_INTERVAL := 60

  // ---------- which gates are due ----------

  /** The conversion of a float64 to an integer drops the fraction. */
  function Truncate(r: real): int {
    if r >= 0.0 then r.Floor else -(-r).Floor
  }

  datatype WebhookGate = WebhookGate(config: map<string, Json>, lastSeen: Option<int>)

  /** The configured interval in nanoseconds, a minute if there is none that is a number. */
  function Interval(config: map<string, Json>): int {
    if "interval_seconds" in config && config["interval_seconds"].Num? && config["interval_seconds"].n.Finite? then
      Wrap64(Truncate(config["interval_seconds"].n.r) * 1_000_000_000)
    else DEFAULT_INTERVAL * 1_000_000_000
  }

  predicate IsDue(g: WebhookGate, now: int) {
    g.lastSeen.None? || now - g.lastSeen.value >= Interval(g.config)
  }

  /** A gate is due if it was never seen, or its interval has passed since: the configured number of seconds, cut to
      whole ones, or a minute if that is no number. */
  lemma DueWhenTheIntervalHasPassed(g: WebhookGate, now: int, seconds: int, fraction: real)
    requires -9_223_372_036 <= seconds <= 9_223_372_036
    requires (seconds >= 0 && 0.0 <= fraction < 1.0) || (seconds <= 0 && -1.0 < fraction <= 0.0)
    ensures g.lastSeen.None? ==> IsDue(g, now)
    ensures g.lastSeen.Some? && "interval_seconds" in g.config
            && g.config["interval_seconds"] == Num(Finite(seconds as real + fraction)) ==>
      (IsDue(g, now) <==> now - g.lastSeen.value >= seconds * 1_000_000_000)
    ensures g.lastSeen.Some? && ("interval_seconds" !in g.config || !g.config["interval_seconds"].Num?) ==>
      (IsDue(g, now) <==> now - g.lastSeen.value >= 60_000_000_000)
  {
    if seconds as real + fraction >= 0.0 {
      assert (seconds as real + fraction).Floor == seconds;
    } else {
      assert (-(seconds as real + fraction)).Floor == -seconds;
    }
  }

  // ---------- rounds ----------

  /** A goroutine: not there, waiting for a slot, holding one, past it but not yet counted done, done. */
  datatype Phase = Absent | Waiting | Polling | Leaving | Done

  /** The main loop waits for a tick, or spawns from index next on and then waits for the group. */
  datatype State = State(running: bool, due: seq<bool>, next: nat, phases: seq<Phase>, polls: seq<nat>,
                         slots: nat, group: nat)

  datatype Event =
    | Tick(gates: seq<WebhookGate>, now: int)
    | Spawn
    | Acquire(i: nat)
    | Release(i: nat)
    | Finish(i: nat)
    | Return

  function Init(): State {
    State(false, [], 0, [], [], 0, 0)
  }

  predicate In(s: State, i: nat, p: Phase) {
    i < |s.phases| && s.phases[i] == p
  }

  predicate Enabled(s: State, e: Event) {
    match e
    case Tick(_, _) => !s.running
    case Spawn => s.running && s.next < |s.due|
    case Acquire(i) => In(s, i, Waiting) && s.slots < MAX_CONCURRENT
    case Release(i) => In(s, i, Polling) && s.slots > 0
    case Finish(i) => In(s, i, Leaving) && s.group > 0
    case Return => s.running && s.next == |s.due| && s.group == 0
  }

  function Step(s: State, e: Event): State
    requires Enabled(s, e)
    requires |s.phases| == |s.due| == |s.polls|
  {
    match e
    case Tick(gates, now) =>
      State(true, seq(|gates|, i requires 0 <= i < |gates| => IsDue(gates[i], now)), 0,
            seq(|gates|, _ => Absent), seq(|gates|, _ => 0), s.slots, s.group)
    case Spawn =>
      if s.due[s.next] then s.(next := s.next + 1, group := s.group + 1, phases := s.phases[s.next := Waiting])
      else s.(next := s.next + 1)
    case Acquire(i) => s.(slots := s.slots + 1, phases := s.phases[i := Polling], polls := s.polls[i := s.polls[i] + 1])
    case Release(i) => s.(slots := s.slots - 1, phases := s.phases[i := Leaving])
    case Finish(i) => s.(group := s.group - 1, phases := s.phases[i := Done])
    case Return => s.(running := false)
  }

  /** A round is about exactly the gates listed that are due, none of them polled yet. */
  lemma RoundsAreAboutDueGates(s: State, gates: seq<WebhookGate>, now: int)
    requires Enabled(s, Tick(gates, now)) && |s.phases| == |s.due| == |s.polls|
    ensures
      var s' := Step(s, Tick(gates, now));
      && s'.running && s'.next == 0 && |s'.due| == |s'.polls| == |gates|
      && (forall i :: 0 <= i < |gates| ==> (s'.due[i] <==> IsDue(gates[i], now)) && s'.polls[i] == 0)
  {
  }

  function Count(f: Phase -> nat, phases: seq<Phase>): nat {
    if |phases| == 0 then 0 else f(phases[0]) + Count(f, phases[1..])
  }

  lemma {:induction false} CountUpdate(f: Phase -> nat, phases: seq<Phase>, i: nat, p: Phase)
    requires i < |phases|
    ensures Count(f, phases[i := p]) == Count(f, phases) - f(phases[i]) + f(p)
    decreases |phases|
  {
    if i == 0 {
      assert phases[0 := p][1..] == phases[1..];
    } else {
      assert phases[i := p][1..] == phases[1..][i - 1 := p];
      CountUpdate(f, phases[1..], i - 1, p);
    }
  }

  lemma {:induction false} CountUniform(f: Phase -> nat, phases: seq<Phase>, each: nat)
    requires forall i :: 0 <= i < |phases| ==> f(phases[i]) == each
    ensures Count(f, phases) == each * |phases|
    decreases |phases|
  {
    if |phases| > 0 {
      CountUniform(f, phases[1..], each);
      assert each * |phases| == each + each * |phases[1..]|;
    }
  }

  lemma {:induction false} CountPositive(f: Phase -> nat, phases: seq<Phase>, i: nat)
    requires i < |phases|
    ensures Count(f, phases) >= f(phases[i])
    decreases |phases|
  {
    if i > 0 {
      CountPositive(f, phases[1..], i - 1);
    }
  }

  function Holds(p: Phase): nat { if p.Polling? then 1 else 0 }

  function Active(p: Phase): nat { if p.Waiting? || p.Polling? || p.Leaving? then 1 else 0 }

  ghost predicate Inv(s: State) {
    && |s.phases| == |s.due| == |s.polls| && s.next <= |s.due|
    && s.slots == Count(Holds, s.phases) && s.slots <= MAX_CONCURRENT
    && s.group == Count(Active, s.phases)
    && (!s.running ==> s.next == |s.due| && s.group == 0)
    && (forall i :: 0 <= i < |s.phases| ==> (s.phases[i].Absent? <==> !(i < s.next && s.due[i])))
    && (forall i :: 0 <= i < |s.phases| ==> s.polls[i] == if s.phases[i].Absent? || s.phases[i].Waiting? then 0 else 1)
  }

  lemma TickKeepsInv(s: State, gates: seq<WebhookGate>, now: int)
    requires Inv(s) && Enabled(s, Tick(gates, now))
    ensures Inv(Step(s, Tick(gates, now)))
  {
    NothingRuns(s);
    CountUniform(Holds, Step(s, Tick(gates, now)).phases, 0);
    CountUniform(Active, Step(s, Tick(gates, now)).phases, 0);
  }

  lemma SpawnKeepsInv(s: State)
    requires Inv(s) && Enabled(s, Spawn)
    ensures Inv(Step(s, Spawn))
  {
    if s.due[s.next] {
      CountUpdate(Holds, s.phases, s.next, Waiting);
      CountUpdate(Active, s.phases, s.next, Waiting);
    }
  }

  lemma StepKeepsInv(s: State, e: Event)
    requires Inv(s) && Enabled(s, e)
    ensures Inv(Step(s, e))
  {
    match e
    case Tick(gates, now) => TickKeepsInv(s, gates, now);
    case Spawn => SpawnKeepsInv(s);
    case Acquire(i) =>
      CountUpdate(Holds, s.phases, i, Polling);
      CountUpdate(Active, s.phases, i, Polling);
    case Release(i) =>
      CountUpdate(Holds, s.phases, i, Leaving);
      CountUpdate(Active, s.phases, i, Leaving);
    case Finish(i) =>
      CountUpdate(Holds, s.phases, i, Done);
      CountUpdate(Active, s.phases, i, Done);
    case Return =>
  }

  /** With an empty group no goroutine of the round is left and every slot is free. */
  lemma NothingRuns(s: State)
    requires Inv(s) && s.group == 0
    ensures forall i :: 0 <= i < |s.phases| ==> s.phases[i].Absent? || s.phases[i].Done?
    ensures s.slots == 0
  {
    forall i | 0 <= i < |s.phases|
      ensures s.phases[i].Absent? || s.phases[i].Done?
    {
      CountPositive(Active, s.phases, i);
    }
    CountUniform(Holds, s.phases, 0);
  }

  ghost predicate Run(s: State, es: seq<Event>)
    requires Inv(s)
    decreases |es|
  {
    |es| == 0 || (Enabled(s, es[0]) && (StepKeepsInv(s, es[0]); Run(Step(s, es[0]), es[1..])))
  }

  ghost function Exec(s: State, es: seq<Event>): (s': State)
    requires Inv(s) && Run(s, es)
    ensures Inv(s')
    decreases |es|
  {
    if |es| == 0 then s else StepKeepsInv(s, es[0]); Exec(Step(s, es[0]), es[1..])
  }

  function Actives(s: State): set<nat> {
    set i | 0 <= i < |s.phases| && s.phases[i].Polling?
  }

  lemma {:induction false} CountIsCardinality(phases: seq<Phase>)
    ensures Count(Holds, phases) == |set i | 0 <= i < |phases| && phases[i].Polling?|
    decreases |phases|
  {
    var all := set i | 0 <= i < |phases| && phases[i].Polling?;
    if |phases| > 0 {
      var n := |phases| - 1;
      var front := phases[..n];
      var rest := set i | 0 <= i < |front| && front[i].Polling?;
      CountIsCardinality(front);
      CountAppend(Holds, front, phases[n]);
      assert phases == front + [phases[n]];
      assert all == rest + if phases[n].Polling? then {n} else {};
    }
  }

  lemma {:induction false} CountAppend(f: Phase -> nat, phases: seq<Phase>, p: Phase)
    ensures Count(f, phases + [p]) == Count(f, phases) + f(p)
    decreases |phases|
  {
    if |phases| > 0 {
      assert (phases + [p])[1..] == phases[1..] + [p];
      CountAppend(f, phases[1..], p);
    } else {
      assert (phases + [p])[1..] == [];
    }
  }

  /** In every interleaving at most ten polls are between acquiring and releasing a slot. */
  lemma AtMostTenPolls(es: seq<Event>)
    requires Run(Init(), es)
    ensures |Actives(Exec(Init(), es))| <= MAX_CONCURRENT
  {
    CountIsCardinality(Exec(Init(), es).phases);
  }

  /** A round returns only when every due gate has been polled exactly once and no other gate at all,
      and the next one starts with no goroutine and no slot left over: rounds never overlap. */
  lemma RoundsDoNotOverlap(es: seq<Event>)
    requires Run(Init(), es)
    requires Enabled(Exec(Init(), es), Return) || !Exec(Init(), es).running
    ensures var s := Exec(Init(), es);
            && (forall i :: 0 <= i < |s.due| ==> s.polls[i] == (if s.due[i] then 1 else 0))
            && (forall i :: 0 <= i < |s.due| ==> s.phases[i] == (if s.due[i] then Done else Absent))
            && s.slots == 0
  {
    NothingRuns(Exec(Init(), es));
  }

  /** Until the round returns some step can be taken: a waiting goroutine finds a slot or somebody holds one. */
  lemma RoundNeverStalls(s: State) returns (e: Event)
    requires Inv(s) && s.running
    ensures Enabled(s, e)
  {
    if s.next < |s.due| {
      return Spawn;
    }
    if s.group == 0 {
      return Return;
    }
    var i := SomeWith(Active, s.phases);
    match s.phases[i] {
      case Polling =>
        CountPositive(Holds, s.phases, i);
        return Release(i);
      case Leaving =>
        return Finish(i);
      case Waiting =>
        if s.slots < MAX_CONCURRENT {
          return Acquire(i);
        }
        var holder := SomeWith(Holds, s.phases);
        return Release(holder);
    }
  }

  lemma {:induction false} SomeWith(f: Phase -> nat, phases: seq<Phase>) returns (i: nat)
    requires Count(f, phases) > 0
    ensures i < |phases| && f(phases[i]) > 0
    decreases |phases|
  {
    if f(phases[0]) > 0 {
      return 0;
    }
    i := SomeWith(f, phases[1..]);
    i := i + 1;
  }

  /** Steps left in the round. */
  function Ahead(p: Phase): nat {
    match p case Absent => 0 case Waiting => 3 case Polling => 2 case Leaving => 1 case Done => 0
  }

  function Measure(s: State): int {
    4 * (|s.due| - s.next) + Count(Ahead, s.phases) + if s.running then 1 else 0
  }

  /** Every step of a round brings its return closer. */
  lemma RoundDescends(s: State, e: Event)
    requires Inv(s) && Enabled(s, e) && !e.Tick?
    ensures 0 <= Measure(Step(s, e)) < Measure(s)
  {
    match e
    case Spawn => if s.due[s.next] { CountUpdate(Ahead, s.phases, s.next, Waiting); }
    case Acquire(i) => CountUpdate(Ahead, s.phases, i, Polling);
    case Release(i) => CountUpdate(Ahead, s.phases, i, Leaving);
    case Finish(i) => CountUpdate(Ahead, s.phases, i, Done);
    case Return =>
  }

  // ---------- one poll's requests ----------

  datatype FetchError = Cancelled | AllFailed(attempts: nat)

  /** Up to maxRetries + 1 requests, stopping at the first that succeeds or when the context ends in a pause. */
  method FetchWithRetry(maxRetries: int, fetch: nat -> Option<map<string, Json>>, cancelled: nat -> bool)
    returns (r: Result<map<string, Json>, FetchError>, attempts: nat)
    ensures r.Ok? ==> 0 < attempts <= maxRetries + 1 && fetch(attempts - 1) == Some(r.value)
    ensures forall k :: 0 <= k < (if r.Ok? then attempts - 1 else attempts) ==> fetch(k).None?
    ensures forall k :: 1 <= k < attempts ==> !cancelled(k)
    ensures r == Err(Cancelled) ==> 0 < attempts <= maxRetries && cancelled(attempts)
    ensures r.Err? && r.error.AllFailed? ==>
      attempts == r.error.attempts == if maxRetries < 0 then 0 else maxRetries + 1
  {
    attempts := 0;
    while attempts <= maxRetries
      invariant 0 <= attempts && (maxRetries >= 0 ==> attempts <= maxRetries + 1) && (maxRetries < 0 ==> attempts == 0)
      invariant forall k :: 0 <= k < attempts ==> fetch(k).None?
      invariant forall k :: 1 <= k < attempts ==> !cancelled(k)
    {
      if attempts > 0 && cancelled(attempts) {
        return Err(Cancelled), attempts;
      }
      var result := fetch(attempts);
      attempts := attempts + 1;
      if result.Some? {
        return Ok(result.value), attempts;
      }
    }
    return Err(AllFailed(attempts)), attempts;
  }
}
