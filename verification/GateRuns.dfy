/** Whole runs of the status machine: device reports, configuration changes and the worker's checks,
    interleaved in any order, with the worker acting on the rows it listed even if they have changed since. */
module GateRuns {
  import opened Prelude
  import opened Payload
  import opened GateRow
  import opened GateTtl

  /** The worker loop: expiry, then a listing stamped with the clock, then its gates one by one. */
  datatype Worker = Idle | Swept | Checking(now: int, pending: Listing)

  /** That some check read a gate with this status, last seen at this instant. */
  datatype Sighting = Sighting(gate: string, status: string, lastSeen: int, readAt: int)

  datatype State = State(clock: int, rows: Table, armed: Armed, worker: Worker, seen: set<Sighting>)

  datatype Event =
    | Create(id: string, ttlSeconds: Option<int>, transitions: seq<Transition>)
    | Remove(id: string)
    | Configure(id: string, ttlSeconds: Option<int>, transitions: seq<Transition>)
    | Report(id: string, status: string, meta: map<string, Json>, at: int)
    | Sweep(at: int, ok: bool)
    | List(now: int, gates: Listing)
    | Skip
    | Check(io: nat -> Io)

  function Init(): State {
    State(0, map[], map[], Idle, {})
  }

  predicate AtCheck(s: State, e: Event) {
    e.Check? && s.worker.Checking? && s.worker.pending != []
  }

  ghost predicate Enabled(s: State, e: Event) {
    match e
    case Create(id, _, _) => id !in s.rows && ':' !in id
    case Remove(id) => id in s.rows
    case Configure(id, _, _) => id in s.rows
    case Report(_, _, _, at) => s.clock <= at
    case Sweep(at, _) => s.worker.Idle? && s.clock <= at
    case List(now, gates) => s.worker.Swept? && s.clock <= now && Lists(s.rows, gates)
    case Skip => s.worker.Swept? || (s.worker.Checking? && s.worker.pending == [])
    case Check(io) => AtCheck(s, e) && forall k :: s.clock <= io(k).writeAt
  }

  function HeadScan(s: State, e: Event): (r: Scan)
    requires AtCheck(s, e)
    ensures r.fired.Some? ==> r.fired.value < |s.worker.pending[0].1.transitions|
  {
    var (id, g) := s.worker.pending[0];
    if g.lastSeen.None? then Scan(s.armed, None) else ScanGate(id, g, s.worker.now, e.io, s.armed)
  }

  function Step(s: State, defaultTtl: int, e: Event): State {
    match e
    case Create(id, ttl, transitions) => s.(rows := s.rows[id := NewRow(ttl, transitions)])
    case Remove(id) => s.(rows := s.rows - {id})
    case Configure(id, ttl, transitions) =>
      if id in s.rows then s.(rows := s.rows[id := s.rows[id].(ttlSeconds := ttl, transitions := transitions)]) else s
    case Report(id, status, meta, at) => s.(clock := at, rows := UpdateStatus(s.rows, id, status, meta, at))
    case Sweep(at, ok) =>
      s.(clock := at, worker := Swept, rows := if ok then MarkUnresponsive(s.rows, at, defaultTtl) else s.rows)
    case List(now, gates) => s.(clock := now, worker := Checking(now, gates))
    case Skip => s.(worker := Idle)
    case Check(io) =>
      if !AtCheck(s, e) then s else
      var (id, g) := s.worker.pending[0];
      var r := HeadScan(s, e);
      var sighting := if g.lastSeen.Some? then {Sighting(id, g.status, g.lastSeen.value, s.worker.now)} else {};
      s.(rows := WriteFired(id, g, r, io, s.rows), armed := r.armed, seen := s.seen + sighting,
         clock := if r.fired.Some? then io(r.fired.value).writeAt else s.clock,
         worker := s.worker.(pending := s.worker.pending[1..]))
  }

  function Exec(s: State, defaultTtl: int, es: seq<Event>): State
    decreases |es|
  {
    if |es| == 0 then s else Exec(Step(s, defaultTtl, es[0]), defaultTtl, es[1..])
  }

  ghost predicate Run(s: State, defaultTtl: int, es: seq<Event>)
    decreases |es|
  {
    |es| == 0 || (Enabled(s, es[0]) && Run(Step(s, defaultTtl, es[0]), defaultTtl, es[1..]))
  }

  predicate Reads(s: State, e: Event, id: string) {
    AtCheck(s, e) && s.worker.pending[0].0 == id
  }

  predicate Fires(s: State, e: Event, id: string, k: nat) {
    Reads(s, e, id) && HeadScan(s, e).fired == Some(k)
  }

  /** Left undisturbed, the check events of a listing do exactly what the worker's nested loop does. */
  lemma {:induction false} ChecksAreCheckAll(s: State, defaultTtl: int, io: string -> nat -> Io)
    requires s.worker.Checking?
    ensures var gates := s.worker.pending;
            var es := seq(|gates|, i requires 0 <= i < |gates| => Check(io(gates[i].0)));
            var s' := Exec(s, defaultTtl, es);
            (s'.rows, s'.armed) == CheckAll(gates, s.worker.now, io, s.rows, s.armed)
    decreases |s.worker.pending|
  {
    var gates := s.worker.pending;
    if |gates| > 0 {
      var es := seq(|gates|, i requires 0 <= i < |gates| => Check(io(gates[i].0)));
      var s1 := Step(s, defaultTtl, es[0]);
      var rest := s1.worker.pending;
      assert es[1..] == seq(|rest|, i requires 0 <= i < |rest| => Check(io(rest[i].0)));
      ChecksAreCheckAll(s1, defaultTtl, io);
    }
  }

  // ---------- why a transition fired ----------

  /** Which transition lists may be configured for which gate. */
  type Family = (string, seq<Transition>) -> bool

  ghost predicate Within(family: Family, es: seq<Event>) {
    forall e :: e in es && (e.Create? || e.Configure?) ==> family(e.id, e.transitions)
  }

  /** Some list of the gate times this status under this key. */
  ghost predicate Starts(family: Family, gate: string, status: string, key: string) {
    exists ts: seq<Transition>, t ::
      family(gate, ts) && t in ts && t.persistOnChange && t.from == status && Key(gate, t) == key
  }

  /** The sighting is what started a timer of this value under this key. */
  ghost predicate Explains(family: Family, o: Sighting, key: string, v: int) {
    o.lastSeen == v && ':' !in o.gate && Starts(family, o.gate, o.status, key)
  }

  /** What every run keeps, if its lists are of the family: each armed key goes back to a sighting. */
  ghost predicate Inv(s: State, family: Family) {
    && ColonFreeIds(s.rows)
    && (forall id :: id in s.rows ==> family(id, s.rows[id].transitions))
    && (forall o :: o in s.seen ==> o.readAt <= s.clock)
    && (s.worker.Checking? ==>
          && s.worker.now <= s.clock
          && (forall o :: o in s.seen ==> o.readAt <= s.worker.now)
          && (forall p :: p in s.worker.pending ==> ':' !in p.0 && p.1.lastSeen.Some? && family(p.0, p.1.transitions)))
    && (forall key :: key in s.armed ==> exists o :: o in s.seen && Explains(family, o, key, s.armed[key]))
  }

  /** A timer value a pass can leave or read under a key: stored before it, or started by this very reading. */
  ghost predicate Timer(id: string, g: Row, armed: Armed, key: string, v: int)
    requires g.lastSeen.Some?
  {
    || Stored(armed, key) == Some(v)
    || (v == g.lastSeen.value
        && exists t :: t in g.transitions && t.persistOnChange && t.from == g.status && Key(id, t) == key)
  }

  lemma {:induction false} TurnsKeepTimers(id: string, g: Row, n: nat, now: int, io: nat -> Io, armed: Armed,
                                           key: string)
    requires g.lastSeen.Some? && n <= |g.transitions|
    requires StoredAt(id, g, n, now, io, armed, key).Some?
    ensures Timer(id, g, armed, key, StoredAt(id, g, n, now, io, armed, key).value)
    decreases n
  {
    if n > 0 {
      var t := g.transitions[n - 1];
      assert t in g.transitions;
      if StoredAt(id, g, n, now, io, armed, key) == StoredAt(id, g, n - 1, now, io, armed, key) {
        TurnsKeepTimers(id, g, n - 1, now, io, armed, key);
      }
    }
  }

  /** A timer met by the current check is explained by a sighting made up to and including it. */
  lemma TimerIsExplained(s: State, family: Family, e: Event, key: string, v: int)
    requires Inv(s, family) && AtCheck(s, e)
    requires var (id, g) := s.worker.pending[0]; g.lastSeen.Some? && Timer(id, g, s.armed, key, v)
    ensures exists o :: o in Step(s, 0, e).seen && Explains(family, o, key, v) && o.readAt <= s.worker.now
  {
    var (id, g) := s.worker.pending[0];
    assert s.worker.pending[0] in s.worker.pending;
    if Stored(s.armed, key) != Some(v) {
      var t :| t in g.transitions && t.persistOnChange && t.from == g.status && Key(id, t) == key;
      var o := Sighting(id, g.status, g.lastSeen.value, s.worker.now);
      assert family(id, g.transitions) && Starts(family, id, g.status, key);
      assert o in Step(s, 0, e).seen && Explains(family, o, key, v);
    }
  }

  lemma CheckKeepsInv(s: State, defaultTtl: int, e: Event, family: Family)
    requires Inv(s, family) && Enabled(s, e) && e.Check?
    ensures Inv(Step(s, defaultTtl, e), family)
  {
    var s' := Step(s, defaultTtl, e);
    assert s.worker.pending[0] in s.worker.pending;
    var (id, g) := s.worker.pending[0];
    ScanTakesTheFirst(id, g, s.worker.now, e.io, s.armed);
    forall key | key in s'.armed
      ensures exists o :: o in s'.seen && Explains(family, o, key, s'.armed[key])
    {
      assert Stored(s'.armed, key) == StoredAt(id, g, Turns(g, HeadScan(s, e)), s.worker.now, e.io, s.armed, key);
      TurnsKeepTimers(id, g, Turns(g, HeadScan(s, e)), s.worker.now, e.io, s.armed, key);
      TimerIsExplained(s, family, e, key, s'.armed[key]);
    }
  }

  lemma StepKeepsInv(s: State, defaultTtl: int, e: Event, family: Family)
    requires Inv(s, family) && Enabled(s, e) && Within(family, [e])
    ensures Inv(Step(s, defaultTtl, e), family)
  {
    assert e in [e];
    match e
    case Check(_) => CheckKeepsInv(s, defaultTtl, e, family);
    case List(now, gates) =>
      forall p | p in gates
        ensures ':' !in p.0 && p.1.lastSeen.Some? && family(p.0, p.1.transitions)
      {
        var i :| 0 <= i < |gates| && gates[i] == p;
        assert gates[i].0 in s.rows;
      }
    case _ =>
  }

  lemma {:induction false} RunKeepsInv(s: State, defaultTtl: int, es: seq<Event>, family: Family)
    requires Inv(s, family) && Run(s, defaultTtl, es) && Within(family, es)
    ensures Inv(Exec(s, defaultTtl, es), family)
    decreases |es|
  {
    if |es| > 0 {
      assert es[0] in es && forall e :: e in es[1..] ==> e in es;
      StepKeepsInv(s, defaultTtl, es[0], family);
      RunKeepsInv(Step(s, defaultTtl, es[0]), defaultTtl, es[1..], family);
    }
  }

  function Joined(t: Transition): string {
    t.from + [':'] + t.to
  }

  /** Two persistent transitions from different statuses that read the same once joined. */
  predicate Clash(t: Transition, u: Transition) {
    t.persistOnChange && u.persistOnChange && t.from != u.from && Joined(t) == Joined(u)
  }

  /** No two transitions that a gate may ever have clash. */
  ghost predicate ClashFree(family: Family) {
    forall id, ts: seq<Transition>, us: seq<Transition>, t, u ::
      ':' !in id && family(id, ts) && family(id, us) && t in ts && u in us ==> !Clash(t, u)
  }

  /** The check at the head of the worker's list fires a transition of its gate. */
  ghost predicate FiresNow(s: State, e: Event) {
    e.Check? && Enabled(s, e) && HeadScan(s, e).fired.Some?
  }

  function Fired(s: State, e: Event): (string, Transition)
    requires AtCheck(s, e) && HeadScan(s, e).fired.Some?
  {
    (s.worker.pending[0].0, s.worker.pending[0].1.transitions[HeadScan(s, e).fired.value])
  }

  /** Some check up to and including this one read the gate in the fired transition's From, and the delay
      has passed since the gate was last seen then. */
  ghost predicate Justified(s: State, e: Event)
    requires FiresNow(s, e)
  {
    var (id, t) := Fired(s, e);
    exists o :: o in Step(s, 0, e).seen && o.gate == id && o.status == t.from && o.readAt <= s.worker.now
      && s.worker.now >= o.lastSeen + AfterMicros(t.afterSeconds)
  }

  /** Over every run of a clash-free family, each firing is justified. */
  lemma FiringIsJustified(family: Family, defaultTtl: int, es: seq<Event>, e: Event)
    requires ClashFree(family) && Within(family, es) && Run(Init(), defaultTtl, es)
    requires FiresNow(Exec(Init(), defaultTtl, es), e)
    ensures Justified(Exec(Init(), defaultTtl, es), e)
  {
    var s := Exec(Init(), defaultTtl, es);
    RunKeepsInv(Init(), defaultTtl, es, family);
    assert s.worker.pending[0] in s.worker.pending;
    var (id, g) := s.worker.pending[0];
    var k := HeadScan(s, e).fired.value;
    var u := g.transitions[k];
    ScanTakesTheFirst(id, g, s.worker.now, e.io, s.armed);
    if g.status == u.from {
      var o := Sighting(id, g.status, g.lastSeen.value, s.worker.now);
      assert o in Step(s, 0, e).seen;
    } else {
      var v := StoredAt(id, g, k, s.worker.now, e.io, s.armed, Key(id, u)).value;
      TurnsKeepTimers(id, g, k, s.worker.now, e.io, s.armed, Key(id, u));
      TimerIsExplained(s, family, e, Key(id, u), v);
      var o :| o in Step(s, 0, e).seen && Explains(family, o, Key(id, u), v) && o.readAt <= s.worker.now;
      var ts: seq<Transition>, t :|
        family(o.gate, ts) && t in ts && t.persistOnChange && t.from == o.status && Key(o.gate, t) == Key(id, u);
      KeysOfGatesAreApart(o.gate, t.from, t.to, id, u.from, u.to);
      assert family(id, g.transitions) && u in g.transitions && !Clash(t, u);
    }
  }

  // ---------- and otherwise it need not be ----------

  /** With every deletion failing, a pass that starts no timer leaves the keys as they are. */
  lemma {:induction false} IdleTurns(id: string, g: Row, n: nat, now: int, io: nat -> Io, armed: Armed, key: string)
    requires g.lastSeen.Some? && n <= |g.transitions| && forall k :: !io(k).setOk && !io(k).delOk
    ensures StoredAt(id, g, n, now, io, armed, key) == Stored(armed, key)
    decreases n
  {
    if n > 0 {
      IdleTurns(id, g, n - 1, now, io, armed, key);
    }
  }

  /** With every deletion failing, the timer a turn starts stays. */
  lemma {:induction false} StartedTimerStays(id: string, g: Row, k: nat, n: nat, now: int, io: nat -> Io, armed: Armed)
    requires g.lastSeen.Some? && k < n <= |g.transitions| && forall j :: io(j).setOk && !io(j).delOk
    requires g.transitions[k].persistOnChange && g.transitions[k].from == g.status
    ensures StoredAt(id, g, n, now, io, armed, Key(id, g.transitions[k])) == g.lastSeen
    decreases n
  {
    if n > k + 1 {
      StartedTimerStays(id, g, k, n - 1, now, io, armed);
    }
  }

  lemma {:induction false} ExecAppend(s: State, defaultTtl: int, es: seq<Event>, es': seq<Event>)
    ensures Exec(s, defaultTtl, es + es') == Exec(Exec(s, defaultTtl, es), defaultTtl, es')
    ensures Run(s, defaultTtl, es + es') <==> Run(s, defaultTtl, es) && Run(Exec(s, defaultTtl, es), defaultTtl, es')
    decreases |es|
  {
    if |es| == 0 {
      assert es + es' == es';
    } else {
      assert (es + es')[0] == es[0] && (es + es')[1..] == es[1..] + es';
      ExecAppend(Step(s, defaultTtl, es[0]), defaultTtl, es[1..], es');
    }
  }

  /** The run reaches this state. */
  ghost predicate Reaches(defaultTtl: int, es: seq<Event>, s: State) {
    Run(Init(), defaultTtl, es) && Exec(Init(), defaultTtl, es) == s
  }

  lemma OneMore(defaultTtl: int, es: seq<Event>, s: State, e: Event)
    requires Reaches(defaultTtl, es, s) && Enabled(s, e)
    ensures Reaches(defaultTtl, es + [e], Step(s, defaultTtl, e))
  {
    ExecAppend(Init(), defaultTtl, es, [e]);
    assert [e][1..] == [];
    assert Run(s, defaultTtl, [e]) && Exec(s, defaultTtl, [e]) == Step(s, defaultTtl, e);
  }

  /** A gate reports, and is about to be listed, alone in the table. */
  lemma ReportAndList(defaultTtl: int, es: seq<Event>, s: State, id: string, status: string, at: int, now: int)
    returns (es': seq<Event>, s': State)
    requires Reaches(defaultTtl, es, s) && s.worker.Idle? && s.rows.Keys == {id} && s.rows[id].transitions != []
    requires s.clock <= at <= now
    ensures Reaches(defaultTtl, es', s')
    ensures
      var g := Touch(s.rows[id], status, map[], at);
      s' == s.(clock := now, rows := map[id := g], worker := Checking(now, [(id, g)]))
    ensures forall e :: e in es' && e !in es ==> !e.Create? && !e.Configure? && (e.Report? ==> e.status == status)
  {
    var g := Touch(s.rows[id], status, map[], at);
    OneMore(defaultTtl, es, s, Report(id, status, map[], at));
    var s1 := Step(s, defaultTtl, Report(id, status, map[], at));
    OneMore(defaultTtl, es + [Report(id, status, map[], at)], s1, Sweep(at, false));
    var s2 := Step(s1, defaultTtl, Sweep(at, false));
    assert s2.rows == map[id := g];
    OneMore(defaultTtl, es + [Report(id, status, map[], at)] + [Sweep(at, false)], s2, List(now, [(id, g)]));
    es' := es + [Report(id, status, map[], at)] + [Sweep(at, false)] + [List(now, [(id, g)])];
    s' := Step(s2, defaultTtl, List(now, [(id, g)]));
  }

  /** A gate alone in the table, about to be listed: seen at 0 in this status. */
  lemma FirstReport(defaultTtl: int, id: string, status: string, ts: seq<Transition>) returns (es: seq<Event>, s: State)
    requires ':' !in id && ts != []
    ensures Reaches(defaultTtl, es, s)
    ensures
      var g := Row(status, Some(0), map[], None, ts);
      s == State(0, map[id := g], map[], Checking(0, [(id, g)]), {})
    ensures forall e :: e in es && (e.Create? || e.Configure?) ==> e.id == id && e.transitions == ts
    ensures forall e :: e in es && e.Report? ==> e.status == status
  {
    var e := Create(id, None, ts);
    OneMore(defaultTtl, [], Init(), e);
    es, s := ReportAndList(defaultTtl, [] + [e], Step(Init(), defaultTtl, e), id, status, 0, 0);
  }

  /** The check of the listed gate, then the next round: a new list for the gate, a report, and a listing again. */
  lemma SecondReport(defaultTtl: int, es: seq<Event>, s: State, io: nat -> Io,
                     id: string, ts: seq<Transition>, status: string, at: int, now: int)
    returns (es': seq<Event>, s': State)
    requires Reaches(defaultTtl, es, s) && ts != [] && 0 <= at <= now && Enabled(s, Check(io))
    requires exists g :: s == State(0, map[id := g], s.armed, Checking(0, [(id, g)]), s.seen)
    requires HeadScan(s, Check(io)).fired.None? && s.rows[id].meta == map[] && s.rows[id].ttlSeconds == None
    ensures Reaches(defaultTtl, es', s')
    ensures
      var s1, g := Step(s, defaultTtl, Check(io)), Row(status, Some(at), map[], None, ts);
      s' == State(now, map[id := g], s1.armed, Checking(now, [(id, g)]), s1.seen)
    ensures forall e :: e in es' && e !in es ==>
      ((e.Create? || e.Configure?) ==> e.id == id && e.transitions == ts) && (e.Report? ==> e.status == status)
  {
    var s1 := Step(s, defaultTtl, Check(io));
    OneMore(defaultTtl, es, s, Check(io));
    var es1 := es + [Check(io)];
    OneMore(defaultTtl, es1, s1, Skip);
    var s2, es2 := Step(s1, defaultTtl, Skip), es1 + [Skip];
    OneMore(defaultTtl, es2, s2, Configure(id, None, ts));
    var s3, es3 := Step(s2, defaultTtl, Configure(id, None, ts)), es2 + [Configure(id, None, ts)];
    es', s' := ReportAndList(defaultTtl, es3, s3, id, status, at, now);
  }

  /** The timer of one transition, whose deletions all fail, is there to be read by the clashing one. */
  lemma ClashStartsTimer(id: string, ts: seq<Transition>, t: Transition, u: Transition, io: nat -> Io)
    requires ':' !in id && t in ts && Clash(t, u) && forall k :: io(k) == Io(true, false, false, false, 0)
    ensures
      var r := ScanGate(id, Row(t.from, Some(0), map[], None, ts), 0, io, map[]);
      r.fired.None? && Stored(r.armed, Key(id, u)) == Some(0)
  {
    var g := Row(t.from, Some(0), map[], None, ts);
    var k :| 0 <= k < |ts| && ts[k] == t;
    KeysOfGatesAreApart(id, t.from, t.to, id, u.from, u.to);
    ScanTakesTheFirst(id, g, 0, io, map[]);
    StartedTimerStays(id, g, k, |ts|, 0, io, map[]);
  }

  /** And read it does, where no other write succeeds. */
  lemma ClashReadsTimer(id: string, us: seq<Transition>, n: nat, status: string, now: int, io: nat -> Io, armed: Armed)
    requires n < |us| && us[n].persistOnChange && us[n].from != status && now >= AfterMicros(us[n].afterSeconds)
    requires Stored(armed, Key(id, us[n])) == Some(0) && forall k :: io(k) == Io(false, true, false, k == n, now)
    ensures ScanGate(id, Row(status, Some(0), map[], None, us), now, io, armed).fired == Some(n)
  {
    var g := Row(status, Some(0), map[], None, us);
    ScanTakesTheFirst(id, g, now, io, armed);
    IdleTurns(id, g, n, now, io, armed, Key(id, us[n]));
    assert Takes(id, g, n, now, io, armed);
  }

  /** Any clash can misfire: one list times a status the other one's transition does not start from. */
  lemma ClashMisfires(family: Family, defaultTtl: int, id: string, ts: seq<Transition>, us: seq<Transition>,
                      t: Transition, u: Transition)
    returns (es: seq<Event>, e: Event)
    requires ':' !in id && family(id, ts) && family(id, us) && t in ts && u in us && Clash(t, u)
    ensures Within(family, es) && Run(Init(), defaultTtl, es) && FiresNow(Exec(Init(), defaultTtl, es), e)
    ensures Fired(Exec(Init(), defaultTtl, es), e) == (id, u)
    ensures forall o :: o in Step(Exec(Init(), defaultTtl, es), 0, e).seen ==> o.status != u.from
  {
    var io := (k: nat) => Io(true, false, false, false, 0);
    var es0, s0 := FirstReport(defaultTtl, id, t.from, ts);
    ClashStartsTimer(id, ts, t, u, io);
    var now := if AfterMicros(u.afterSeconds) > 0 then AfterMicros(u.afterSeconds) else 0;
    var s: State;
    es, s := SecondReport(defaultTtl, es0, s0, io, id, us, t.from, 0, now);
    var n :| 0 <= n < |us| && us[n] == u;
    var io' := (k: nat) => Io(false, true, false, k == n, now);
    e := Check(io');
    ClashReadsTimer(id, us, n, t.from, now, io', s.armed);
  }

  ghost predicate JustifiedWithin(family: Family, defaultTtl: int, es: seq<Event>, e: Event) {
    Within(family, es) && Run(Init(), defaultTtl, es) && FiresNow(Exec(Init(), defaultTtl, es), e)
    ==> Justified(Exec(Init(), defaultTtl, es), e)
  }

  /** Every firing of every run is justified exactly if no two transitions a gate may have clash. */
  lemma FiringsAreJustifiedIffClashFree(family: Family, defaultTtl: int)
    ensures (forall es, e :: JustifiedWithin(family, defaultTtl, es, e)) <==> ClashFree(family)
  {
    if ClashFree(family) {
      forall es, e
        ensures JustifiedWithin(family, defaultTtl, es, e)
      {
        if Within(family, es) && Run(Init(), defaultTtl, es) && FiresNow(Exec(Init(), defaultTtl, es), e) {
          FiringIsJustified(family, defaultTtl, es, e);
        }
      }
    } else {
      var id, ts: seq<Transition>, us: seq<Transition>, t, u :|
        ':' !in id && family(id, ts) && family(id, us) && t in ts && u in us && Clash(t, u);
      var es, e := ClashMisfires(family, defaultTtl, id, ts, us, t, u);
      assert !JustifiedWithin(family, defaultTtl, es, e);
    }
  }

  const COLONS := [Transition("a", "b:c", 3600, true), Transition("a:b", "c", 1, true)]

  lemma ColonPass(now: int, io: nat -> Io, armed: Armed)
    requires forall k :: io(k) == Io(true, true, true, true, 2 * SECOND)
    requires 0 <= now < 3600 * SECOND
    ensures
      ScanGate("g", Row("a", Some(0), map[], None, COLONS), now, io, armed).fired ==
      if now < SECOND then None else Some(1)
  {
    var g, first, second := Row("a", Some(0), map[], None, COLONS), Key("g", COLONS[0]), Key("g", COLONS[1]);
    assert ['a'] + [':'] + ['b', ':', 'c'] == ['a', ':', 'b'] + [':'] + ['c'];
    assert first == second;
    ScanTakesTheFirst("g", g, now, io, armed);
    AfterMicrosIsExactUpToTheLimit(3600);
    AfterMicrosIsExactUpToTheLimit(1);
    assert !Takes("g", g, 0, now, io, armed);
    assert StoredAt("g", g, 1, now, io, armed, second) == StoredAfter(g, COLONS[0], now, io(0), Stored(armed, second));
    assert Takes("g", g, 1, now, io, armed) <==> now >= SECOND;
  }

  /** No failing call is needed: a gate that only ever reported "a", in one list, fires a transition from "a:b". */
  lemma ColonsMisfire(defaultTtl: int, io: nat -> Io) returns (es: seq<Event>)
    requires forall k :: io(k) == Io(true, true, true, true, 2 * SECOND)
    ensures Run(Init(), defaultTtl, es) && FiresNow(Exec(Init(), defaultTtl, es), Check(io))
    ensures forall e :: e in es && e.Report? ==> e.status == "a"
    ensures Fired(Exec(Init(), defaultTtl, es), Check(io)) == ("g", Transition("a:b", "c", 1, true))
    ensures forall o :: o in Step(Exec(Init(), defaultTtl, es), 0, Check(io)).seen ==> o.status == "a"
  {
    var ts := COLONS;
    assert ts[1] == Transition("a:b", "c", 1, true);
    var es0, s0 := FirstReport(defaultTtl, "g", "a", ts);
    ColonPass(0, io, map[]);
    var s: State;
    es, s := SecondReport(defaultTtl, es0, s0, io, "g", ts, "a", 0, 2 * SECOND);
    ColonPass(2 * SECOND, io, s.armed);
  }

  // ---------- unresponsive marks ----------

  predicate MarksRow(s: State, defaultTtl: int, e: Event, id: string) {
    e.Sweep? && e.ok && id in s.rows && Expired(s.rows[id], e.at, defaultTtl)
  }

  /** Device reports and fired transitions that reach the gate's row. */
  predicate UpdatesRow(s: State, e: Event, id: string) {
    id in s.rows && ((e.Report? && e.id == id) || (Reads(s, e, id) && HeadScan(s, e).fired.Some?))
  }

  function Marks(s: State, defaultTtl: int, es: seq<Event>, id: string): nat
    decreases |es|
  {
    if |es| == 0 then 0 else
      (if MarksRow(s, defaultTtl, es[0], id) then 1 else 0) + Marks(Step(s, defaultTtl, es[0]), defaultTtl, es[1..], id)
  }

  function Updates(s: State, defaultTtl: int, es: seq<Event>, id: string): nat
    decreases |es|
  {
    if |es| == 0 then 0 else
      (if UpdatesRow(s, es[0], id) then 1 else 0) + Updates(Step(s, defaultTtl, es[0]), defaultTtl, es[1..], id)
  }

  function Markable(s: State, id: string): nat {
    if id in s.rows && !Exempt(s.rows[id].status) then 1 else 0
  }

  lemma {:induction false} MarksAreCoveredByUpdates(s: State, defaultTtl: int, es: seq<Event>, id: string)
    ensures Marks(s, defaultTtl, es, id) <= Updates(s, defaultTtl, es, id) + Markable(s, id)
    decreases |es|
  {
    if |es| > 0 {
      MarksAreCoveredByUpdates(Step(s, defaultTtl, es[0]), defaultTtl, es[1..], id);
    }
  }

  /** Over every run a gate is marked unresponsive at most as often as its status was updated. */
  lemma MarksAtMostUpdates(defaultTtl: int, es: seq<Event>, id: string)
    requires Run(Init(), defaultTtl, es)
    ensures Marks(Init(), defaultTtl, es, id) <= Updates(Init(), defaultTtl, es, id)
  {
    MarksAreCoveredByUpdates(Init(), defaultTtl, es, id);
  }
}
