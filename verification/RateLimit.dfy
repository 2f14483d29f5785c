/** Fixed-window counting in Redis: INCR followed by EXPIRE NX in one transaction, and what it admits. */
module RateLimit {
  import opened Prelude

  datatype Counter = Counter(count: int, deadline: Option<int>)

  type Store = map<string, Counter>

  // ---------- one counter ----------

  /** A key whose deadline has come reads as absent. */
  function Unexpired(c: Option<Counter>, now: int): Option<Counter> {
    if c.Some? && c.value.deadline.Some? && c.value.deadline.value <= now then None else c
  }

  function Incr(c: Option<Counter>): Counter {
    if c.None? then Counter(1, None) else c.value.(count := c.value.count + 1)
  }

  function ExpireNX(c: Counter, now: int, window: int): Counter {
    if c.deadline.None? then c.(deadline := Some(now + window)) else c
  }

  function Bump(c: Option<Counter>, now: int, window: int): Counter {
    ExpireNX(Incr(Unexpired(c, now)), now, window)
  }

  datatype Arrival = Arrival(at: int, reply: Reply)

  function After(c: Option<Counter>, a: Arrival, window: int): Option<Counter> {
    if a.reply == Lost(false) then c else Some(Bump(c, a.at, window))
  }

  /** Fail-closed: an arrival without a reply is never admitted. */
  predicate Admits(c: Option<Counter>, a: Arrival, max: int, window: int) {
    a.reply.Answered? && Bump(c, a.at, window).count <= max
  }

  ghost predicate InOrder(arrivals: seq<Arrival>) {
    forall i, j :: 0 <= i < j < |arrivals| ==> arrivals[i].at <= arrivals[j].at
  }

  /** How many arrivals between two instants, both included, are admitted. */
  function Admitted(c: Option<Counter>, arrivals: seq<Arrival>, max: int, window: int, from: int, until: int): nat
    decreases |arrivals|
  {
    if |arrivals| == 0 then 0 else
      var a := arrivals[0];
      (if from <= a.at <= until && Admits(c, a, max, window) then 1 else 0)
      + Admitted(After(c, a, window), arrivals[1..], max, window, from, until)
  }

  function AtLeast0(x: int): nat {
    if x < 0 then 0 else x
  }

  predicate Sane(c: Option<Counter>) {
    c.Some? ==> c.value.deadline.Some? && c.value.count >= 1
  }

  /** A window reaching past the interval admits there at most what it has left. */
  lemma {:induction false} OneWindow(c: Counter, arrivals: seq<Arrival>, max: int, window: int, from: int, until: int)
    requires InOrder(arrivals) && c.deadline.Some? && c.deadline.value > until
    ensures Admitted(Some(c), arrivals, max, window, from, until) <= AtLeast0(max - c.count)
    decreases |arrivals|
  {
    if |arrivals| > 0 {
      if arrivals[0].at > until {
        NothingAfter(Some(c), arrivals, max, window, from, until);
      } else {
        var next := if arrivals[0].reply == Lost(false) then c else Bump(Some(c), arrivals[0].at, window);
        OneWindow(next, arrivals[1..], max, window, from, until);
      }
    }
  }

  lemma {:induction false} NothingAfter(c: Option<Counter>, arrivals: seq<Arrival>, max: int, window: int, from: int,
                                        until: int)
    requires InOrder(arrivals) && (|arrivals| > 0 ==> arrivals[0].at > until)
    ensures Admitted(c, arrivals, max, window, from, until) == 0
    decreases |arrivals|
  {
    if |arrivals| > 0 {
      NothingAfter(After(c, arrivals[0], window), arrivals[1..], max, window, from, until);
    }
  }

  /** A window still open after the interval began leaves room for itself and one more. */
  lemma {:induction false} TwoWindows(c: Counter, arrivals: seq<Arrival>, max: int, window: int, from: int)
    requires InOrder(arrivals) && window > 0 && c.deadline.Some? && c.deadline.value > from
    ensures Admitted(Some(c), arrivals, max, window, from, from + window) <= AtLeast0(max - c.count) + AtLeast0(max)
    decreases |arrivals|
  {
    if |arrivals| > 0 {
      var a := arrivals[0];
      var next := Bump(Some(c), a.at, window);
      if a.reply == Lost(false) {
        TwoWindows(c, arrivals[1..], max, window, from);
      } else if a.at < c.deadline.value {
        TwoWindows(next, arrivals[1..], max, window, from);
      } else {
        OneWindow(next, arrivals[1..], max, window, from, from + window);
      }
    }
  }

  /** In any interval of one window length, wherever it starts, at most twice the limit is admitted. */
  lemma {:induction false} SlidingBound(c: Option<Counter>, arrivals: seq<Arrival>, max: int, window: int, from: int)
    requires InOrder(arrivals) && window > 0 && Sane(c)
    ensures Admitted(c, arrivals, max, window, from, from + window) <= 2 * AtLeast0(max)
    decreases |arrivals|
  {
    if c.Some? && c.value.deadline.value > from {
      TwoWindows(c.value, arrivals, max, window, from);
    } else if |arrivals| > 0 {
      var a := arrivals[0];
      var next := After(c, a, window);
      if next.Some? && next.value.deadline.value > from {
        TwoWindows(next.value, arrivals[1..], max, window, from);
      } else {
        SlidingBound(next, arrivals[1..], max, window, from);
      }
    }
  }

  function Verdicts(c: Option<Counter>, arrivals: seq<Arrival>, max: int, window: int): (v: seq<bool>)
    ensures |v| == |arrivals|
    decreases |arrivals|
  {
    if |arrivals| == 0 then [] else
      [Admits(c, arrivals[0], max, window)] + Verdicts(After(c, arrivals[0], window), arrivals[1..], max, window)
  }

  /** Within one window the limit is exact: the first max arrivals are admitted and no others. */
  lemma WindowIsExact(c: Option<Counter>, arrivals: seq<Arrival>, max: int, window: int)
    requires |arrivals| > 0 && window > 0 && Unexpired(c, arrivals[0].at).None?
    requires forall i :: 0 <= i < |arrivals| ==> arrivals[i].reply.Answered? && arrivals[i].at < arrivals[0].at + window
    ensures forall i :: 0 <= i < |arrivals| ==> (Verdicts(c, arrivals, max, window)[i] <==> i < max)
  {
    var first := Bump(c, arrivals[0].at, window);
    RestOfWindow(first, arrivals[1..], max, window);
    forall i | 0 <= i < |arrivals|
      ensures Verdicts(c, arrivals, max, window)[i] <==> i < max
    {
      if i > 0 {
        assert Verdicts(c, arrivals, max, window)[i] == Verdicts(Some(first), arrivals[1..], max, window)[i - 1];
      }
    }
  }

  lemma {:induction false} RestOfWindow(c: Counter, arrivals: seq<Arrival>, max: int, window: int)
    requires c.deadline.Some?
    requires forall i :: 0 <= i < |arrivals| ==> arrivals[i].reply.Answered? && arrivals[i].at < c.deadline.value
    ensures forall i :: 0 <= i < |arrivals| ==> (Verdicts(Some(c), arrivals, max, window)[i] <==> c.count + i < max)
    decreases |arrivals|
  {
    if |arrivals| > 0 {
      var next := Bump(Some(c), arrivals[0].at, window);
      RestOfWindow(next, arrivals[1..], max, window);
      forall i | 0 < i < |arrivals|
        ensures Verdicts(Some(c), arrivals, max, window)[i] <==> c.count + i < max
      {
        assert Verdicts(Some(c), arrivals, max, window)[i] == Verdicts(Some(next), arrivals[1..], max, window)[i - 1];
      }
    }
  }

  /** Twice the limit is reached: a full window and, the instant it closes, the next. */
  lemma SlidingBoundIsReached()
    ensures var arrivals := [Arrival(0, Answered), Arrival(0, Answered), Arrival(10, Answered), Arrival(10, Answered)];
            Admitted(None, arrivals, 2, 10, 0, 10) == 4
  {
    var late := [Arrival(10, Answered), Arrival(10, Answered)];
    var arrivals := [Arrival(0, Answered), Arrival(0, Answered)] + late;
    assert arrivals[1..][1..] == late;
    assert Admitted(Some(Counter(2, Some(10))), late, 2, 10, 0, 10) == 2;
  }

  // ---------- many keys ----------

  /** Everything clients do to the counters, in the order Redis executes it. */
  datatype Op = Hit(key: string, at: int, reply: Reply) | Drop(key: string)

  function CounterOf(store: Store, key: string): Option<Counter> {
    if key in store then Some(store[key]) else None
  }

  function Apply(store: Store, op: Op, window: int): Store {
    match op
    case Drop(key) => store - {key}
    case Hit(key, at, reply) =>
      if reply == Lost(false) then store else store[key := Bump(CounterOf(store, key), at, window)]
  }

  predicate HitAdmitted(store: Store, op: Op, max: int, window: int) {
    op.Hit? && Admits(CounterOf(store, op.key), Arrival(op.at, op.reply), max, window)
  }

  function AdmittedOn(store: Store, ops: seq<Op>, key: string, max: int, window: int, from: int, until: int): nat
    decreases |ops|
  {
    if |ops| == 0 then 0 else
      var here := ops[0].Hit? && ops[0].key == key && from <= ops[0].at <= until;
      (if here && HitAdmitted(store, ops[0], max, window) then 1 else 0)
      + AdmittedOn(Apply(store, ops[0], window), ops[1..], key, max, window, from, until)
  }

  function HitsOn(ops: seq<Op>, key: string): seq<Arrival> {
    if |ops| == 0 then [] else
      var rest := HitsOn(ops[1..], key);
      if ops[0].Hit? && ops[0].key == key then [Arrival(ops[0].at, ops[0].reply)] + rest else rest
  }

  /** Operations whose hits are stamped in order, none before the given instant. */
  ghost predicate Chronological(ops: seq<Op>, start: int)
    decreases |ops|
  {
    |ops| == 0 ||
    ((ops[0].Hit? ==> start <= ops[0].at) && Chronological(ops[1..], if ops[0].Hit? then ops[0].at else start))
  }

  ghost predicate NoneBefore(arrivals: seq<Arrival>, start: int) {
    forall i :: 0 <= i < |arrivals| ==> start <= arrivals[i].at
  }

  lemma EarlierFirst(a: Arrival, rest: seq<Arrival>)
    requires InOrder(rest) && NoneBefore(rest, a.at)
    ensures InOrder([a] + rest) && NoneBefore([a] + rest, a.at)
  {
    var all := [a] + rest;
    assert forall i :: 0 < i < |all| ==> all[i] == rest[i - 1];
  }

  lemma {:induction false} HitsAreInOrder(ops: seq<Op>, key: string, start: int)
    requires Chronological(ops, start)
    ensures InOrder(HitsOn(ops, key)) && NoneBefore(HitsOn(ops, key), start)
    decreases |ops|
  {
    if |ops| > 0 {
      HitsAreInOrder(ops[1..], key, if ops[0].Hit? then ops[0].at else start);
      if ops[0].Hit? && ops[0].key == key {
        EarlierFirst(Arrival(ops[0].at, ops[0].reply), HitsOn(ops[1..], key));
      }
    }
  }

  /** A key that is never dropped lives through its own hits only. */
  lemma {:induction false} KeysAreIndependent(store: Store, ops: seq<Op>, key: string, max: int, window: int,
                                              from: int, until: int)
    requires Drop(key) !in ops
    ensures AdmittedOn(store, ops, key, max, window, from, until)
            == Admitted(CounterOf(store, key), HitsOn(ops, key), max, window, from, until)
    decreases |ops|
  {
    if |ops| > 0 {
      var store' := Apply(store, ops[0], window);
      KeysAreIndependent(store', ops[1..], key, max, window, from, until);
      if ops[0].Hit? && ops[0].key == key {
        assert HitsOn(ops, key)[1..] == HitsOn(ops[1..], key);
        assert CounterOf(store', key) == After(CounterOf(store, key), Arrival(ops[0].at, ops[0].reply), window);
      } else {
        assert ops[0] in ops && HitsOn(ops, key) == HitsOn(ops[1..], key);
        assert CounterOf(store', key) == CounterOf(store, key);
      }
    }
  }

  /** For every arrival sequence over any keys: a key that is never dropped admits at most twice the limit
      in any interval of one window length. */
  lemma LimiterBound(store: Store, ops: seq<Op>, key: string, max: int, window: int, start: int, from: int)
    requires Chronological(ops, start) && window > 0 && Drop(key) !in ops && Sane(CounterOf(store, key))
    ensures AdmittedOn(store, ops, key, max, window, from, from + window) <= 2 * AtLeast0(max)
  {
    KeysAreIndependent(store, ops, key, max, window, from, from + window);
    HitsAreInOrder(ops, key, start);
    SlidingBound(CounterOf(store, key), HitsOn(ops, key), max, window, from);
  }

  // ---------- the middleware ----------

  datatype Verdict = Proceed | Unavailable | TooMany(retryAfterSeconds: int)

  function LimiterKey(prefix: string, ip: string): string {
    "rl:" + (prefix + [':'] + ip)
  }

  /** Addresses and uses of the limiter have counters of their own, as the names of uses contain no colon. */
  lemma LimiterKeysAreApart(prefix: string, ip: string, prefix': string, ip': string)
    requires ':' !in prefix && ':' !in prefix'
    ensures LimiterKey(prefix, ip) == LimiterKey(prefix', ip') <==> prefix == prefix' && ip == ip'
  {
    var k, k' := LimiterKey(prefix, ip), LimiterKey(prefix', ip');
    assert k[3..] == prefix + [':'] + ip && k'[3..] == prefix' + [':'] + ip';
    if k == k' {
      JoinIsUnique(':', prefix, ip, prefix', ip');
    }
  }

  /** One request more in the window that is open, or the first in one that opens now. */
  function Counted(before: Option<Counter>, now: int, window: int): Counter {
    match before
    case Some(Counter(count, Some(deadline))) =>
      if now < deadline then Counter(count + 1, Some(deadline)) else Counter(1, Some(now + window))
    case Some(Counter(count, None)) => Counter(count + 1, Some(now + window))
    case None => Counter(1, Some(now + window))
  }

  /** An executed request counts the same whether or not its reply arrives; one not executed does not count. */
  lemma RequestsAreCountedOnce(c: Option<Counter>, at: int, max: int, window: int)
    ensures After(c, Arrival(at, Answered), window) == After(c, Arrival(at, Lost(true)), window) ==
      Some(Counted(c, at, window))
    ensures After(c, Arrival(at, Lost(false)), window) == c
    ensures Admits(c, Arrival(at, Answered), max, window) <==> Counted(c, at, window).count <= max
    ensures !Admits(c, Arrival(at, Lost(true)), max, window) && !Admits(c, Arrival(at, Lost(false)), max, window)
  {
  }

  class RateLimiter {
    var store: Store
    const prefix: string
    const maxAttempts: int
    const windowSeconds: int

    constructor (prefix: string, maxAttempts: int, windowSeconds: int)
      ensures store == map[] && this.prefix == prefix && this.maxAttempts == maxAttempts
        && this.windowSeconds == windowSeconds
    {
      this.store, this.prefix, this.maxAttempts, this.windowSeconds := map[], prefix, maxAttempts, windowSeconds;
    }

    /** One request: count it, start its window if none is open, deny on a lost reply or a full window. */
    method Handle(ip: string, now: int, reply: Reply) returns (verdict: Verdict)
      modifies this`store
      ensures var op := Hit(LimiterKey(prefix, ip), now, reply);
              && store == Apply(old(store), op, windowSeconds)
              && (verdict == Proceed <==> HitAdmitted(old(store), op, maxAttempts, windowSeconds))
              && (verdict == Unavailable <==> reply.Lost?)
              && (verdict.TooMany? ==> verdict.retryAfterSeconds == windowSeconds)
      ensures forall other :: other != LimiterKey(prefix, ip) ==>
        CounterOf(store, other) == CounterOf(old(store), other)
      ensures
        var before, after := CounterOf(old(store), LimiterKey(prefix, ip)), CounterOf(store, LimiterKey(prefix, ip));
        && (reply == Lost(false) ==> after == before)
        && (reply != Lost(false) ==> after == Some(Counted(before, now, windowSeconds)))
        && (verdict == Proceed <==> reply.Answered? && after.value.count <= maxAttempts)
    {
      var key := LimiterKey(prefix, ip);
      if reply.Lost? {
        if reply.applied {
          store := store[key := ExpireNX(Incr(Unexpired(CounterOf(store, key), now)), now, windowSeconds)];
        }
        return Unavailable;
      }
      var count := Incr(Unexpired(CounterOf(store, key), now));
      store := store[key := count];
      store := store[key := ExpireNX(count, now, windowSeconds)];
      if count.count > maxAttempts {
        return TooMany(windowSeconds);
      }
      return Proceed;
    }
  }
}
