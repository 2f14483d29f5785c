/** Resolving a custom domain to its gate through a Redis cache with separate lifetimes for hits and misses. */
module TenantCache {
  import opened Prelude

  const FOUND_TTL := 300
  const NOT_FOUND_TTL := 30
  const NOT_FOUND := "\0"

  datatype Domain = Domain(gate: string, verified: bool)

  datatype Answer = Tenant(gate: string) | NoTenant

  /** The row for a host at every instant: the database changes on its own. */
  type Db = (string, int) -> Option<Domain>

  function AnswerOf(row: Option<Domain>): Answer {
    if row.Some? && row.value.verified then Tenant(row.value.gate) else NoTenant
  }

  function Direct(db: Db, host: string, at: int): Answer {
    AnswerOf(db(host, at))
  }

  /** The database answers with a gate exactly if it has a verified row for it. */
  lemma OnlyVerifiedDomainsAreTenants(db: Db, host: string, at: int, gate: string)
    ensures Direct(db, host, at) == Tenant(gate) <==> db(host, at) == Some(Domain(gate, true))
  {
  }

  // ---------- the cached value ----------

  datatype Cached = Cached(value: string, deadline: int)

  function Encode(a: Answer): string {
    match a case Tenant(gate) => gate case NoTenant => NOT_FOUND
  }

  function Decode(value: string): Answer {
    if value != NOT_FOUND then Tenant(value) else NoTenant
  }

  /** A gate id is never the sentinel. */
  predicate Storable(a: Answer) {
    a.Tenant? ==> a.gate != NOT_FOUND
  }

  function Lifetime(a: Answer): int {
    match a case Tenant(_) => FOUND_TTL case NoTenant => NOT_FOUND_TTL
  }

  function CacheFor(a: Answer, now: int): Cached {
    Cached(Encode(a), now + Lifetime(a))
  }

  predicate Fresh(c: Cached, now: int) {
    now < c.deadline
  }

  // ---------- requests, interleaved ----------

  /** A cache entry, and when the database was read for it. */
  datatype Entry = Entry(cached: Cached, readAt: int)

  /** A request past its cache miss: not yet read, read, or failed at the database. */
  datatype Lookup = Missed(host: string) | Read(host: string, answer: Answer, readAt: int) | Failed(host: string)

  datatype Served = Served(host: string, answer: Answer, at: int, dbError: bool)

  datatype State = State(clock: int, cache: map<string, Entry>, lookups: map<nat, Lookup>, served: seq<Served>)

  datatype Event =
    | Ask(id: nat, host: string, at: int, cacheUp: bool)
    | Query(id: nat, at: int, ok: bool)
    | Fill(id: nat, at: int, stored: bool)

  function Init(): State {
    State(0, map[], map[], [])
  }

  /** lag bounds the time between reading the database and storing the result. */
  predicate Enabled(s: State, e: Event, lag: int) {
    && s.clock <= e.at
    && match e
       case Ask(id, host, _, _) => id !in s.lookups && host != ""
       case Query(id, _, _) => id in s.lookups && s.lookups[id].Missed?
       case Fill(id, at, _) =>
         && id in s.lookups && !s.lookups[id].Missed?
         && (s.lookups[id].Read? ==> at <= s.lookups[id].readAt + lag)
  }

  function Step(db: Db, s: State, e: Event): State {
    match e
    case Ask(id, host, at, cacheUp) =>
      if cacheUp && host in s.cache && Fresh(s.cache[host].cached, at) then
        s.(clock := at, served := s.served + [Served(host, Decode(s.cache[host].cached.value), at, false)])
      else
        s.(clock := at, lookups := s.lookups[id := Missed(host)])
    case Query(id, at, ok) =>
      if id !in s.lookups then s else
      var host := s.lookups[id].host;
      s.(clock := at, lookups := s.lookups[id := if ok then Read(host, Direct(db, host, at), at) else Failed(host)])
    case Fill(id, at, stored) =>
      if id !in s.lookups then s else
      var served, rest := s.lookups[id], s.lookups - {id};
      match served
      case Read(host, answer, readAt) =>
        s.(clock := at, lookups := rest, served := s.served + [Served(host, answer, at, false)],
           cache := if stored then s.cache[host := Entry(CacheFor(answer, at), readAt)] else s.cache)
      case _ => s.(clock := at, lookups := rest, served := s.served + [Served(served.host, NoTenant, at, true)])
  }

  function Exec(db: Db, s: State, es: seq<Event>): State
    decreases |es|
  {
    if |es| == 0 then s else Exec(db, Step(db, s, es[0]), es[1..])
  }

  ghost predicate Run(db: Db, s: State, es: seq<Event>, lag: int)
    decreases |es|
  {
    |es| == 0 || (Enabled(s, es[0], lag) && Run(db, Step(db, s, es[0]), es[1..], lag))
  }

  /** The answer was the database's own at some instant no older than its lifetime and this slack. */
  ghost predicate Recent(db: Db, v: Served, slack: int) {
    exists u :: v.at - Lifetime(v.answer) - slack <= u <= v.at && Direct(db, v.host, u) == v.answer
  }

  ghost predicate Inv(db: Db, s: State, lag: int) {
    && (forall host :: host in s.cache ==>
          var Entry(cached, readAt) := s.cache[host];
          && Decode(cached.value) == Direct(db, host, readAt) && readAt <= s.clock
          && cached.deadline <= readAt + lag + Lifetime(Decode(cached.value)))
    && (forall id :: id in s.lookups && s.lookups[id].Read? ==>
          && s.lookups[id].answer == Direct(db, s.lookups[id].host, s.lookups[id].readAt)
          && s.lookups[id].readAt <= s.clock)
    && (forall i :: 0 <= i < |s.served| && !s.served[i].dbError ==> Recent(db, s.served[i], lag - 1))
  }

  lemma StepKeepsInv(db: Db, s: State, e: Event, lag: int)
    requires Inv(db, s, lag) && Enabled(s, e, lag) && lag >= 0
    requires forall host, at :: Storable(Direct(db, host, at))
    ensures Inv(db, Step(db, s, e), lag)
  {
    var s' := Step(db, s, e);
    if |s'.served| > |s.served| {
      var v := s'.served[|s.served|];
      assert s'.served == s.served + [v];
      if !v.dbError {
        var u := if e.Ask? then s.cache[e.host].readAt else s.lookups[e.id].readAt;
        assert Direct(db, v.host, u) == v.answer;
        assert Recent(db, v, lag - 1);
      }
    }
    if e.Fill? && s.lookups[e.id].Read? {
      assert Storable(Direct(db, s.lookups[e.id].host, s.lookups[e.id].readAt));
    }
  }

  lemma {:induction false} RunKeepsInv(db: Db, s: State, es: seq<Event>, lag: int)
    requires Inv(db, s, lag) && Run(db, s, es, lag) && lag >= 0
    requires forall host, at :: Storable(Direct(db, host, at))
    ensures Inv(db, Exec(db, s, es), lag)
    decreases |es|
  {
    if |es| > 0 {
      StepKeepsInv(db, s, es[0], lag);
      RunKeepsInv(db, Step(db, s, es[0]), es[1..], lag);
    }
  }

  /** Every answer served without a database error is what the database itself would have answered at some
      instant within five minutes before (a tenant) or thirty seconds before (none), but for the lag; an entry
      is no longer read at its deadline, which saves one second. */
  lemma AnswersAreRecent(db: Db, es: seq<Event>, lag: int, i: nat)
    requires Run(db, Init(), es, lag) && lag >= 0
    requires forall host, at :: Storable(Direct(db, host, at))
    requires i < |Exec(db, Init(), es).served| && !Exec(db, Init(), es).served[i].dbError
    ensures Recent(db, Exec(db, Init(), es).served[i], lag - 1)
  {
    RunKeepsInv(db, Init(), es, lag);
  }

  /** Where the row has not changed for that long, cached and direct answers coincide. */
  lemma StableRowsAreServedExactly(db: Db, es: seq<Event>, lag: int, i: nat)
    requires Run(db, Init(), es, lag) && lag >= 0
    requires forall host, at :: Storable(Direct(db, host, at))
    requires i < |Exec(db, Init(), es).served| && !Exec(db, Init(), es).served[i].dbError
    requires
      var v := Exec(db, Init(), es).served[i];
      forall u :: v.at - FOUND_TTL - lag < u <= v.at ==> Direct(db, v.host, u) == Direct(db, v.host, v.at)
    ensures var v := Exec(db, Init(), es).served[i]; v.answer == Direct(db, v.host, v.at)
  {
    AnswersAreRecent(db, es, lag, i);
  }

  /** A tenant until its row is removed at instant 1. */
  function RemovedAtOne(): Db {
    (host, at) => if at < 1 then Some(Domain("g", true)) else None
  }

  /** Read just before the removal, stored as late as the lag allows, asked for in the entry's last second. */
  function LateFill(lag: nat): seq<Event> {
    [Ask(0, "h", 0, true), Query(0, 0, true), Fill(0, lag, true), Ask(1, "h", lag + FOUND_TTL - 1, true)]
  }

  lemma LateFillRun(lag: nat)
    ensures
      var db := RemovedAtOne();
      && Run(db, Init(), LateFill(lag), lag)
      && Exec(db, Init(), LateFill(lag)).served
         == [Served("h", Tenant("g"), lag, false), Served("h", Tenant("g"), lag + FOUND_TTL - 1, false)]
  {
    var db, es := RemovedAtOne(), LateFill(lag);
    var s1 := Step(db, Init(), es[0]);
    var s2 := Step(db, s1, es[1]);
    assert Direct(db, "h", 0) == Tenant("g");
    var s3 := Step(db, s2, es[2]);
    assert s3.cache == map["h" := Entry(CacheFor(Tenant("g"), lag), 0)];
    var s4 := Step(db, s3, es[3]);
    assert es[1..][1..][1..] == [es[3]];
    assert Exec(db, s3, es[1..][1..][1..]) == Exec(db, s4, []) == s4;
    assert Run(db, s3, es[1..][1..][1..], lag);
    assert es[1..][1..][0] == es[2] && Exec(db, s2, es[1..][1..]) == s4 && Run(db, s2, es[1..][1..], lag);
    assert es[1..][0] == es[1] && Exec(db, s1, es[1..]) == s4 && Run(db, s1, es[1..], lag);
  }

  /** For every lag, a tenant is served that the database has not had for any shorter slack. */
  lemma SlowFillOutlivesItsLifetime(lag: nat, slack: int)
    requires slack < lag - 1
    ensures
      var db, es := RemovedAtOne(), LateFill(lag);
      && Run(db, Init(), es, lag)
      && |Exec(db, Init(), es).served| == 2
      && !Exec(db, Init(), es).served[1].dbError
      && !Recent(db, Exec(db, Init(), es).served[1], slack)
  {
    LateFillRun(lag);
  }

  /** In a run against this database, the i-th answer is recent within this slack. */
  ghost predicate RecentInRun(db: Db, es: seq<Event>, lag: int, slack: int, i: nat) {
    && Run(db, Init(), es, lag)
    && i < |Exec(db, Init(), es).served| && !Exec(db, Init(), es).served[i].dbError
    ==> Recent(db, Exec(db, Init(), es).served[i], slack)
  }

  /** All answers of all runs are recent within a slack exactly if it is no less than the lag but one. */
  lemma AnswersAreRecentIffSlackCoversLag(lag: nat, slack: int)
    ensures
      (forall db: Db, es, i: nat :: (forall host, at :: Storable(Direct(db, host, at))) ==>
          RecentInRun(db, es, lag, slack, i))
      <==> slack >= lag - 1
  {
    if slack >= lag - 1 {
      forall db: Db, es, i: nat | forall host, at :: Storable(Direct(db, host, at))
        ensures RecentInRun(db, es, lag, slack, i)
      {
        var s := Exec(db, Init(), es);
        if Run(db, Init(), es, lag) && i < |s.served| && !s.served[i].dbError {
          AnswersAreRecent(db, es, lag, i);
          assert Recent(db, s.served[i], lag - 1);
        }
      }
    } else {
      SlowFillOutlivesItsLifetime(lag, slack);
      assert forall host, at :: Storable(Direct(RemovedAtOne(), host, at));
      assert !RecentInRun(RemovedAtOne(), LateFill(lag), lag, slack, 1);
    }
  }

  // ---------- the middleware ----------

  /** What one request on its own answers and leaves in the cache: a fresh entry is served as it is, otherwise the
      database decides and both kinds of answer are cached, each for its own time. An error caches nothing. */
  function Request(cache: map<string, Cached>, host: string, askAt: int, cacheUp: bool,
                   row: Result<Option<Domain>, ()>, fillAt: int, stored: bool): (Answer, map<string, Cached>) {
    if host == "" then (NoTenant, cache)
    else if cacheUp && host in cache && Fresh(cache[host], askAt) then (Decode(cache[host].value), cache)
    else if row.Err? then (NoTenant, cache)
    else (AnswerOf(row.value), if stored then cache[host := CacheFor(AnswerOf(row.value), fillAt)] else cache)
  }

  function Values(cache: map<string, Entry>): map<string, Cached> {
    map host | host in cache :: cache[host].cached
  }

  /** The steps of a request that no other one interrupts. */
  function StepsAlone(db: Db, s: State, id: nat, host: string, askAt: int, cacheUp: bool,
                      readAt: int, ok: bool, fillAt: int, stored: bool): State {
    var s1 := Step(db, s, Ask(id, host, askAt, cacheUp));
    if id !in s1.lookups then s1 else Step(db, Step(db, s1, Query(id, readAt, ok)), Fill(id, fillAt, stored))
  }

  /** Such a request answers, and leaves the cache, as the middleware does on the row it read. */
  lemma RequestIsItsSteps(db: Db, s: State, id: nat, host: string, askAt: int, cacheUp: bool,
                          readAt: int, ok: bool, fillAt: int, stored: bool)
    requires host != "" && id !in s.lookups
    ensures
      var s' := StepsAlone(db, s, id, host, askAt, cacheUp, readAt, ok, fillAt, stored);
      var row := if ok then Ok(db(host, readAt)) else Err(());
      var (answer, cache) := Request(Values(s.cache), host, askAt, cacheUp, row, fillAt, stored);
      && Values(s'.cache) == cache && s'.lookups == s.lookups
      && |s'.served| == |s.served| + 1 && s'.served[|s.served|].host == host && s'.served[|s.served|].answer == answer
  {
    var s1 := Step(db, s, Ask(id, host, askAt, cacheUp));
    if id in s1.lookups {
      assert s1.lookups[id := s1.lookups[id]] - {id} == s.lookups;
    }
  }

  class TenantResolver {
    var cache: map<string, Cached>

    constructor ()
      ensures cache == map[]
    {
      cache := map[];
    }

    method Resolve(host: string, askAt: int, cacheUp: bool, row: Result<Option<Domain>, ()>, fillAt: int, stored: bool)
      returns (answer: Answer)
      modifies this
      ensures (answer, cache) == Request(old(cache), host, askAt, cacheUp, row, fillAt, stored)
      ensures
        var hit := cacheUp && host in old(cache) && askAt < old(cache)[host].deadline;
        && (host == "" ==> answer == NoTenant && cache == old(cache))
        && (host != "" && hit ==>
              && cache == old(cache)
              && answer == if old(cache)[host].value == "\0" then NoTenant else Tenant(old(cache)[host].value))
        && (host != "" && !hit && row.Err? ==> answer == NoTenant && cache == old(cache))
        && (host != "" && !hit && row.Ok? ==>
              && (forall gate :: answer == Tenant(gate) <==> row.value == Some(Domain(gate, true)))
              && cache == if !stored then old(cache)
                          else if answer.Tenant? then old(cache)[host := Cached(answer.gate, fillAt + 300)]
                          else old(cache)[host := Cached("\0", fillAt + 30)])
    {
      if host == "" {
        return NoTenant;
      }
      if cacheUp && host in cache && Fresh(cache[host], askAt) {
        var value := cache[host].value;
        if value != NOT_FOUND {
          return Tenant(value);
        }
        return NoTenant;
      }
      match row
      case Err(_) =>
        return NoTenant;
      case Ok(found) =>
        if found.Some? && found.value.verified {
          if stored {
            cache := cache[host := Cached(found.value.gate, fillAt + FOUND_TTL)];
          }
          return Tenant(found.value.gate);
        }
        if stored {
          cache := cache[host := Cached(NOT_FOUND, fillAt + NOT_FOUND_TTL)];
        }
        return NoTenant;
    }
  }
}
