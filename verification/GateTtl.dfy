/** The TTL worker: expiry marking and the nested loop that applies automatic status transitions. */
module GateTtl {
  import opened Prelude
  import opened Payload
  import opened GateRow

  // ---------- delays and keys ----------

  /** time.Duration(AfterSeconds) * time.Second, rounded up to the microseconds that deadlines are compared in. */
  function AfterMicros(afterSeconds: int): int {
    (Wrap64(afterSeconds * 1_000_000_000) + 999) / 1000
  }

  const MAX_AFTER_SECONDS := 9_223_372_036

  /** A positive delay is honoured exactly up to the int64 limit of nanoseconds; any longer one comes out too short. */
  lemma AfterMicrosIsExactUpToTheLimit(afterSeconds: int)
    requires 0 < afterSeconds
    ensures AfterMicros(afterSeconds) == afterSeconds * SECOND <==> afterSeconds <= MAX_AFTER_SECONDS
    ensures afterSeconds > MAX_AFTER_SECONDS ==> AfterMicros(afterSeconds) < afterSeconds * SECOND
  {
    var nanos := afterSeconds * 1_000_000_000;
    if afterSeconds <= MAX_AFTER_SECONDS {
      assert Wrap64(nanos) == nanos;
    } else {
      assert nanos > 0x7fff_ffff_ffff_ffff;
      assert Wrap64(nanos) <= nanos - 0x1_0000_0000_0000_0000;
    }
  }

  /** Gate id, from and to, joined by colons under a prefix of their own. */
  function TransitionKey(id: string, from: string, to: string): string {
    "gate:tr:" + (id + [':'] + (from + [':'] + to))
  }

  /** Gate ids contain no colon, so keys of different gates never meet, and two keys of
      one gate meet only when their (from, to) halves read the same. */
  lemma KeysOfGatesAreApart(id: string, from: string, to: string, id': string, from': string, to': string)
    requires ':' !in id && ':' !in id'
    ensures TransitionKey(id, from, to) == TransitionKey(id', from', to')
            <==> id == id' && from + [':'] + to == from' + [':'] + to'
  {
    var a, b := id + [':'] + (from + [':'] + to), id' + [':'] + (from' + [':'] + to');
    if TransitionKey(id, from, to) == TransitionKey(id', from', to') {
      assert a == TransitionKey(id, from, to)[8..] == TransitionKey(id', from', to')[8..] == b;
      JoinIsUnique(':', id, from + [':'] + to, id', from' + [':'] + to');
    }
  }

  /** A transition's key is its own among all pairs of statuses exactly when neither status contains a colon. */
  lemma KeyIsUniqueIffColonFree(id: string, from: string, to: string)
    requires ':' !in id
    ensures (forall from', to' ::
               TransitionKey(id, from, to) == TransitionKey(id, from', to') ==> from' == from && to' == to)
            <==> ':' !in from && ':' !in to
  {
    if ':' in from {
      var i :| 0 <= i < |from| && from[i] == ':';
      var from', to' := from[..i], from[i + 1..] + [':'] + to;
      assert from + [':'] + to == from' + [':'] + to';
      KeysOfGatesAreApart(id, from, to, id, from', to');
    } else if ':' in to {
      var i :| 0 <= i < |to| && to[i] == ':';
      var from', to' := from + [':'] + to[..i], to[i + 1..];
      assert from + [':'] + to == from' + [':'] + to';
      KeysOfGatesAreApart(id, from, to, id, from', to');
    } else {
      forall from', to' | TransitionKey(id, from, to) == TransitionKey(id, from', to')
        ensures from' == from && to' == to
      {
        KeysOfGatesAreApart(id, from, to, id, from', to');
        OneColonSplitsOneWay(from, to, from', to');
      }
    }
  }

  lemma OneColonSplitsOneWay(from: string, to: string, from': string, to': string)
    requires ':' !in from && ':' !in to
    requires from + [':'] + to == from' + [':'] + to'
    ensures from' == from && to' == to
  {
    var whole := from + [':'] + to;
    assert whole[|from'|] == ':' && whole[|from|] == ':';
    assert forall i :: 0 <= i < |whole| && i != |from| ==> whole[i] != ':';
    assert from == whole[..|from|] == from' && to == whole[|from| + 1..] == to';
  }

  ghost predicate ColonFree(transitions: seq<Transition>) {
    forall t :: t in transitions ==> ':' !in t.from
  }

  ghost predicate DistinctPairs(transitions: seq<Transition>) {
    forall i, j :: 0 <= i < j < |transitions| ==>
      transitions[i].from != transitions[j].from || transitions[i].to != transitions[j].to
  }

  ghost predicate DistinctKeys(id: string, transitions: seq<Transition>) {
    forall i, j :: 0 <= i < j < |transitions| ==> Key(id, transitions[i]) != Key(id, transitions[j])
  }

  function Key(id: string, t: Transition): string {
    TransitionKey(id, t.from, t.to)
  }

  lemma DistinctPairsGiveDistinctKeys(id: string, transitions: seq<Transition>)
    requires ':' !in id && ColonFree(transitions) && DistinctPairs(transitions)
    ensures DistinctKeys(id, transitions)
  {
    forall i, j | 0 <= i < j < |transitions|
      ensures Key(id, transitions[i]) != Key(id, transitions[j])
    {
      var s, t := transitions[i], transitions[j];
      assert s in transitions && t in transitions;
      KeysOfGatesAreApart(id, s.from, s.to, id, t.from, t.to);
      if s.from + [':'] + s.to == t.from + [':'] + t.to {
        JoinIsUnique(':', s.from, s.to, t.from, t.to);
      }
    }
  }

  // ---------- one pass over one gate's transitions ----------

  type Armed = map<string, int>

  /** What the environment does to the calls made for one transition. A failed call has no effect;
      a worker without a Redis client behaves like one whose Redis calls all fail. */
  datatype Io = Io(setOk: bool, getOk: bool, delOk: bool, writeOk: bool, writeAt: int)

  datatype Scan = Scan(armed: Armed, fired: Option<nat>)

  function Set(armed: Armed, key: string, at: int, ok: bool): Armed {
    if ok then armed[key := at] else armed
  }

  function Del(armed: Armed, key: string, ok: bool): Armed {
    if ok then armed - {key} else armed
  }

  function ScanFrom(id: string, g: Row, i: nat, now: int, io: nat -> Io, armed: Armed): (r: Scan)
    requires g.lastSeen.Some? && i <= |g.transitions|
    ensures r.fired.Some? ==> i <= r.fired.value < |g.transitions|
    decreases |g.transitions| - i
  {
    if i == |g.transitions| then Scan(armed, None) else
      var t, key := g.transitions[i], Key(id, g.transitions[i]);
      if g.status != t.from then
        if !t.persistOnChange then
          ScanFrom(id, g, i + 1, now, io, Del(armed, key, io(i).delOk))
        else if !io(i).getOk || key !in armed || now < armed[key] + AfterMicros(t.afterSeconds) then
          ScanFrom(id, g, i + 1, now, io, armed)
        else
          var armed' := Del(armed, key, io(i).delOk);
          if io(i).writeOk then Scan(armed', Some(i)) else ScanFrom(id, g, i + 1, now, io, armed')
      else
        var armed1 := if t.persistOnChange then Set(armed, key, g.lastSeen.value, io(i).setOk) else armed;
        if now < g.lastSeen.value + AfterMicros(t.afterSeconds) then
          ScanFrom(id, g, i + 1, now, io, armed1)
        else
          var armed' := Del(armed1, key, io(i).delOk);
          if io(i).writeOk then Scan(armed', Some(i)) else ScanFrom(id, g, i + 1, now, io, armed')
  }

  function ScanGate(id: string, g: Row, now: int, io: nat -> Io, armed: Armed): (r: Scan)
    requires g.lastSeen.Some?
    ensures r.fired.Some? ==> r.fired.value < |g.transitions|
  {
    ScanFrom(id, g, 0, now, io, armed)
  }

  // What one transition does alone, seen through its own key only.

  function Stored(armed: Armed, key: string): Option<int> {
    if key in armed then Some(armed[key]) else None
  }

  /** Enabled: in From long enough, or armed for long enough and read back. */
  predicate Due(g: Row, t: Transition, now: int, io: Io, stored: Option<int>)
    requires g.lastSeen.Some?
  {
    if g.status == t.from then now >= g.lastSeen.value + AfterMicros(t.afterSeconds)
    else t.persistOnChange && io.getOk && stored.Some? && now >= stored.value + AfterMicros(t.afterSeconds)
  }

  /** The key afterwards: cancelled, consumed, armed with the time seen, or left alone. */
  function StoredAfter(g: Row, t: Transition, now: int, io: Io, stored: Option<int>): Option<int>
    requires g.lastSeen.Some?
  {
    var cancelled := g.status != t.from && !t.persistOnChange;
    if io.delOk && (cancelled || Due(g, t, now, io, stored)) then None
    else if g.status == t.from && t.persistOnChange && io.setOk then g.lastSeen
    else stored
  }

  /** What is stored under a key when the n-th transition has its turn: only the turns under that key count. */
  function StoredAt(id: string, g: Row, n: nat, now: int, io: nat -> Io, armed: Armed, key: string): Option<int>
    requires g.lastSeen.Some? && n <= |g.transitions|
  {
    if n == 0 then Stored(armed, key) else
      var t, before := g.transitions[n - 1], StoredAt(id, g, n - 1, now, io, armed, key);
      if Key(id, t) == key then StoredAfter(g, t, now, io(n - 1), before) else before
  }

  /** At its turn the transition is due, and its write succeeds. */
  predicate Takes(id: string, g: Row, j: nat, now: int, io: nat -> Io, armed: Armed)
    requires g.lastSeen.Some? && j < |g.transitions|
  {
    var t := g.transitions[j];
    Due(g, t, now, io(j), StoredAt(id, g, j, now, io, armed, Key(id, t))) && io(j).writeOk
  }

  /** How many transitions have had their turn when a pass is over. */
  function Turns(g: Row, r: Scan): nat {
    if r.fired.Some? then r.fired.value + 1 else |g.transitions|
  }

  /** The first transition that takes its turn is applied, no other, and every key is left as the turns
      up to then leave it. */
  ghost predicate IsFirstTaken(id: string, g: Row, now: int, io: nat -> Io, armed: Armed, r: Scan)
    requires g.lastSeen.Some?
  {
    && Turns(g, r) <= |g.transitions|
    && (r.fired.Some? ==> Takes(id, g, r.fired.value, now, io, armed))
    && (forall j :: 0 <= j < (if r.fired.Some? then r.fired.value else |g.transitions|) ==>
          !Takes(id, g, j, now, io, armed))
    && (forall key :: Stored(r.armed, key) == StoredAt(id, g, Turns(g, r), now, io, armed, key))
  }

  /** The stored keys after the transition at index i has had its turn. */
  function AfterTurn(id: string, g: Row, i: nat, now: int, io: nat -> Io, armed: Armed): Armed
    requires g.lastSeen.Some? && i < |g.transitions|
  {
    var key := Key(id, g.transitions[i]);
    var stored := StoredAfter(g, g.transitions[i], now, io(i), Stored(armed, key));
    if stored.Some? then armed[key := stored.value] else armed - {key}
  }

  lemma ScanTakesOneTurn(id: string, g: Row, i: nat, now: int, io: nat -> Io, armed: Armed)
    requires g.lastSeen.Some? && i < |g.transitions|
    ensures
      var t, armed' := g.transitions[i], AfterTurn(id, g, i, now, io, armed);
      var takes := Due(g, t, now, io(i), Stored(armed, Key(id, t))) && io(i).writeOk;
      ScanFrom(id, g, i, now, io, armed) ==
      if takes then Scan(armed', Some(i)) else ScanFrom(id, g, i + 1, now, io, armed')
  {
    var t, key := g.transitions[i], Key(id, g.transitions[i]);
    var armed' := AfterTurn(id, g, i, now, io, armed);
    var armed1 := if t.persistOnChange then Set(armed, key, g.lastSeen.value, io(i).setOk) else armed;
    if g.status != t.from {
      var gone := !t.persistOnChange || Due(g, t, now, io(i), Stored(armed, key));
      assert armed' == if gone then Del(armed, key, io(i).delOk) else armed;
    } else if now < g.lastSeen.value + AfterMicros(t.afterSeconds) {
      assert armed' == armed1;
    } else {
      assert armed' == Del(armed1, key, io(i).delOk);
    }
  }

  lemma {:induction false} RestTakesTheFirst(id: string, g: Row, i: nat, now: int, io: nat -> Io, start: Armed,
                                             armed: Armed)
    requires g.lastSeen.Some? && i <= |g.transitions|
    requires forall key :: Stored(armed, key) == StoredAt(id, g, i, now, io, start, key)
    requires forall j :: 0 <= j < i ==> !Takes(id, g, j, now, io, start)
    ensures IsFirstTaken(id, g, now, io, start, ScanFrom(id, g, i, now, io, armed))
    decreases |g.transitions| - i
  {
    if i < |g.transitions| {
      var armed' := AfterTurn(id, g, i, now, io, armed);
      ScanTakesOneTurn(id, g, i, now, io, armed);
      forall key
        ensures Stored(armed', key) == StoredAt(id, g, i + 1, now, io, start, key)
      {
        assert Stored(armed, key) == StoredAt(id, g, i, now, io, start, key);
      }
      if !Takes(id, g, i, now, io, start) {
        RestTakesTheFirst(id, g, i + 1, now, io, start, armed');
      }
    }
  }

  /** The nested loop refines the pure reading, for any list and under any pattern of failures: the lowest-index
      transition that takes its turn is applied and no other, and only keys of transitions up to it change. */
  lemma ScanTakesTheFirst(id: string, g: Row, now: int, io: nat -> Io, armed: Armed)
    requires g.lastSeen.Some?
    ensures
      var r := ScanGate(id, g, now, io, armed);
      && IsFirstTaken(id, g, now, io, armed, r)
      && (forall key :: (forall j :: 0 <= j < Turns(g, r) ==> key != Key(id, g.transitions[j]))
            ==> Stored(r.armed, key) == Stored(armed, key))
  {
    RestTakesTheFirst(id, g, 0, now, io, armed, armed);
    var r := ScanGate(id, g, now, io, armed);
    forall key | forall j :: 0 <= j < Turns(g, r) ==> key != Key(id, g.transitions[j])
      ensures Stored(r.armed, key) == Stored(armed, key)
    {
      OtherTurnsLeaveKeys(id, g, 0, Turns(g, r), now, io, armed, key);
    }
  }

  /** Turns under other keys change nothing. */
  lemma {:induction false} OtherTurnsLeaveKeys(id: string, g: Row, m: nat, n: nat, now: int, io: nat -> Io,
                                               armed: Armed, key: string)
    requires g.lastSeen.Some? && m <= n <= |g.transitions|
    requires forall j :: m <= j < n ==> Key(id, g.transitions[j]) != key
    ensures StoredAt(id, g, n, now, io, armed, key) == StoredAt(id, g, m, now, io, armed, key)
    decreases n
  {
    if m < n {
      OtherTurnsLeaveKeys(id, g, m, n - 1, now, io, armed, key);
    }
  }

  /** A transition whose key is its own sees it as it was stored, and leaves it as its own state demands. */
  lemma OwnKeyActsAlone(id: string, g: Row, k: nat, now: int, io: nat -> Io, armed: Armed)
    requires g.lastSeen.Some? && k < |g.transitions|
    requires forall j :: 0 <= j < |g.transitions| && j != k ==> Key(id, g.transitions[j]) != Key(id, g.transitions[k])
    ensures
      var t, r := g.transitions[k], ScanGate(id, g, now, io, armed);
      var stored := Stored(armed, Key(id, t));
      && (Takes(id, g, k, now, io, armed) <==> Due(g, t, now, io(k), stored) && io(k).writeOk)
      && Stored(r.armed, Key(id, t)) == if k < Turns(g, r) then StoredAfter(g, t, now, io(k), stored) else stored
  {
    var t, r := g.transitions[k], ScanGate(id, g, now, io, armed);
    ScanTakesTheFirst(id, g, now, io, armed);
    OtherTurnsLeaveKeys(id, g, 0, k, now, io, armed, Key(id, t));
    if k < Turns(g, r) {
      OtherTurnsLeaveKeys(id, g, k + 1, Turns(g, r), now, io, armed, Key(id, t));
    } else {
      OtherTurnsLeaveKeys(id, g, 0, Turns(g, r), now, io, armed, Key(id, t));
    }
  }

  // ---------- all gates of one check ----------

  type Listing = seq<(string, Row)>

  /** What the listing query may answer: every candidate row once, in any order. */
  ghost predicate Lists(rows: Table, gates: Listing) {
    && (forall i :: 0 <= i < |gates| ==> gates[i].0 in rows && gates[i].1 == rows[gates[i].0] && Candidate(gates[i].1))
    && (forall i, j :: 0 <= i < j < |gates| ==> gates[i].0 != gates[j].0)
    && (forall id :: id in rows && Candidate(rows[id]) ==> (id, rows[id]) in gates)
  }

  ghost predicate ColonFreeIds(rows: Table) {
    forall id :: id in rows ==> ':' !in id
  }

  /** The row a fired transition writes: its target status, and the metadata as listed. */
  function FiredRow(g: Row, r: Scan, io: nat -> Io): Row
    requires r.fired.Some? ==> r.fired.value < |g.transitions|
  {
    if r.fired.Some? then Touch(g, g.transitions[r.fired.value].to, g.meta, io(r.fired.value).writeAt) else g
  }

  function WriteFired(id: string, g: Row, r: Scan, io: nat -> Io, rows: Table): Table
    requires r.fired.Some? ==> r.fired.value < |g.transitions|
  {
    if r.fired.None? then rows else
      UpdateStatus(rows, id, g.transitions[r.fired.value].to, g.meta, io(r.fired.value).writeAt)
  }

  /** A fired transition writes its target status, the time of the write and the metadata as listed, and leaves
      the configuration and all other gates alone. */
  lemma FiringWritesTheTarget(id: string, g: Row, r: Scan, io: nat -> Io, rows: Table)
    requires r.fired.Some? && r.fired.value < |g.transitions|
    ensures
      var k := r.fired.value;
      && FiredRow(g, r, io) == Row(g.transitions[k].to, Some(io(k).writeAt), g.meta, g.ttlSeconds, g.transitions)
      && (id in rows ==> WriteFired(id, g, r, io, rows) == rows[id :=
            Row(g.transitions[k].to, Some(io(k).writeAt), g.meta, rows[id].ttlSeconds, rows[id].transitions)])
      && (id !in rows ==> WriteFired(id, g, r, io, rows) == rows)
  {
  }

  function CheckAll(gates: Listing, now: int, io: string -> nat -> Io, rows: Table, armed: Armed): (Table, Armed) {
    if |gates| == 0 then (rows, armed)
    else if gates[0].1.lastSeen.None? then CheckAll(gates[1..], now, io, rows, armed)
    else
      var (id, g) := gates[0];
      var r := ScanGate(id, g, now, io(id), armed);
      CheckAll(gates[1..], now, io, WriteFired(id, g, r, io(id), rows), r.armed)
  }

  ghost predicate OwnKeysAgree(id: string, armed: Armed, armed': Armed) {
    forall from, to :: Stored(armed, TransitionKey(id, from, to)) == Stored(armed', TransitionKey(id, from, to))
  }

  /** A pass reads and changes only keys under its own gate id. */
  lemma {:induction false} ScanStaysOnOwnKeys(id: string, g: Row, i: nat, now: int, io: nat -> Io, armed: Armed,
                                              armed': Armed)
    requires g.lastSeen.Some? && i <= |g.transitions| && OwnKeysAgree(id, armed, armed')
    ensures var r, r' := ScanFrom(id, g, i, now, io, armed), ScanFrom(id, g, i, now, io, armed');
            r.fired == r'.fired && OwnKeysAgree(id, r.armed, r'.armed)
    ensures forall key :: (forall from, to :: key != TransitionKey(id, from, to))
              ==> Stored(ScanFrom(id, g, i, now, io, armed).armed, key) == Stored(armed, key)
    decreases |g.transitions| - i
  {
    if i < |g.transitions| {
      var t := g.transitions[i];
      assert Stored(armed, Key(id, t)) == Stored(armed', Key(id, t));
      ScanTakesOneTurn(id, g, i, now, io, armed);
      ScanTakesOneTurn(id, g, i, now, io, armed');
      var next, next' := AfterTurn(id, g, i, now, io, armed), AfterTurn(id, g, i, now, io, armed');
      assert OwnKeysAgree(id, next, next');
      if !(Due(g, t, now, io(i), Stored(armed, Key(id, t))) && io(i).writeOk) {
        ScanStaysOnOwnKeys(id, g, i + 1, now, io, next, next');
      }
    }
  }

  lemma ScanLeavesOtherGatesAlone(id: string, g: Row, now: int, io: nat -> Io, armed: Armed, other: string)
    requires g.lastSeen.Some? && ':' !in id && ':' !in other && id != other
    ensures OwnKeysAgree(other, ScanGate(id, g, now, io, armed).armed, armed)
  {
    ScanStaysOnOwnKeys(id, g, 0, now, io, armed, armed);
    forall from, to, from', to'
      ensures TransitionKey(other, from, to) != TransitionKey(id, from', to')
    {
      KeysOfGatesAreApart(other, from, to, id, from', to');
    }
  }

  ghost predicate Mentions(gates: Listing, id: string) {
    exists i :: 0 <= i < |gates| && gates[i].0 == id
  }

  /** The gate stands as if it alone had been scanned, on the row and the keys of the start. */
  ghost predicate AsIfAlone(id: string, g: Row, now: int, io: nat -> Io, rows: Table, armed: Armed, rows': Table,
                            armed': Armed)
    requires g.lastSeen.Some?
  {
    var r := ScanGate(id, g, now, io, armed);
    && OwnKeysAgree(id, armed', r.armed)
    && (id in rows ==> id in rows' && rows'[id] == WriteFired(id, g, r, io, rows)[id])
  }

  /** Gates do not interfere: after a whole check every listed gate stands as if scanned alone,
      and rows and keys of all other gates are untouched. */
  lemma {:induction false} CheckAllIsPerGate(gates: Listing, now: int, io: string -> nat -> Io, rows: Table,
                                             armed: Armed)
    requires forall i :: 0 <= i < |gates| ==> ':' !in gates[i].0 && gates[i].1.lastSeen.Some?
    requires forall i, j :: 0 <= i < j < |gates| ==> gates[i].0 != gates[j].0
    ensures var (rows', armed') := CheckAll(gates, now, io, rows, armed);
            && rows'.Keys == rows.Keys
            && (forall i :: 0 <= i < |gates| ==>
                  AsIfAlone(gates[i].0, gates[i].1, now, io(gates[i].0), rows, armed, rows', armed'))
            && (forall id :: ':' !in id && !Mentions(gates, id) ==>
                  OwnKeysAgree(id, armed', armed) && (id in rows ==> rows'[id] == rows[id]))
  {
    if |gates| > 0 {
      var (id, g) := gates[0];
      var r := ScanGate(id, g, now, io(id), armed);
      var rows1 := WriteFired(id, g, r, io(id), rows);
      var rest := gates[1..];
      var (rows', armed') := CheckAll(rest, now, io, rows1, r.armed);
      assert CheckAll(gates, now, io, rows, armed) == (rows', armed');
      CheckAllIsPerGate(rest, now, io, rows1, r.armed);
      assert !Mentions(rest, id);
      forall i | 1 <= i < |gates|
        ensures AsIfAlone(gates[i].0, gates[i].1, now, io(gates[i].0), rows, armed, rows', armed')
      {
        var (id', g') := gates[i];
        assert rest[i - 1] == gates[i] && gates[0].0 != gates[i].0;
        ScanLeavesOtherGatesAlone(id, g, now, io(id), armed, id');
        ScanStaysOnOwnKeys(id', g', 0, now, io(id'), r.armed, armed);
      }
      forall other | ':' !in other && !Mentions(gates, other)
        ensures OwnKeysAgree(other, armed', armed) && (other in rows ==> rows'[other] == rows[other])
      {
        assert gates[0].0 != other;
        assert forall i :: 0 <= i < |rest| ==> rest[i] == gates[i + 1];
        ScanLeavesOtherGatesAlone(id, g, now, io(id), armed, other);
      }
    }
  }

  // ---------- one whole tick, seen from one gate ----------

  datatype Tick = Tick(expiry: int, now: int, io: nat -> Io)

  datatype Standing = Standing(row: Row, armed: Armed)

  /** What a tick's check fires on a gate, after the same tick's expiry. */
  function FiredBy(id: string, d: Standing, ttlSeconds: int, tick: Tick): Option<nat> {
    var row := ExpireRow(d.row, tick.expiry, ttlSeconds);
    if Candidate(row) then ScanGate(id, row, tick.now, tick.io, d.armed).fired else None
  }

  /** A gate's row and keys after a round: the sweep, then the check on what the sweep left, each if it succeeds. */
  function RoundGate(id: string, d: Standing, ttlSeconds: int, tick: Tick, sweepOk: bool, listOk: bool): Standing {
    var row := if sweepOk then ExpireRow(d.row, tick.expiry, ttlSeconds) else d.row;
    if !listOk || !Candidate(row) then Standing(row, d.armed) else
      var r := ScanGate(id, row, tick.now, tick.io, d.armed);
      Standing(FiredRow(row, r, tick.io), r.armed)
  }

  /** A round in which sweep and listing succeed. */
  function TickGate(id: string, d: Standing, ttlSeconds: int, tick: Tick): Standing {
    RoundGate(id, d, ttlSeconds, tick, true, true)
  }

  /** A transition fired on a gate as it stands writes its target; without a firing the gate stays. */
  ghost predicate WritesWhatFires(g: Row, fired: Option<nat>, io: nat -> Io, after: Row) {
    && (fired.None? ==> after == g)
    && (fired.Some? ==>
          && fired.value < |g.transitions|
          && after == Row(g.transitions[fired.value].to, Some(io(fired.value).writeAt), g.meta, g.ttlSeconds,
                          g.transitions))
  }

  /** A round whose calls succeed writes exactly what its check fires on the swept gate; one whose listing fails
      sweeps only, one whose sweep fails checks the gate as it was, and keys change only where the gate is checked. */
  lemma RoundsWriteWhatTheyFire(id: string, d: Standing, ttlSeconds: int, tick: Tick)
    ensures
      var whole := TickGate(id, d, ttlSeconds, tick);
      var sweepOnly := RoundGate(id, d, ttlSeconds, tick, true, false);
      var checkOnly := RoundGate(id, d, ttlSeconds, tick, false, true);
      && WritesWhatFires(sweepOnly.row, FiredBy(id, d, ttlSeconds, tick), tick.io, whole.row)
      && sweepOnly.row == d.row.(status := if Expired(d.row, tick.expiry, ttlSeconds) then "unresponsive"
                                           else d.row.status)
      && sweepOnly.armed == d.armed
      && RoundGate(id, d, ttlSeconds, tick, false, false) == d
      && (d.row.lastSeen.None? || d.row.transitions == [] ==> whole == sweepOnly && checkOnly == d)
      && (d.row.lastSeen.Some? && d.row.transitions != [] ==>
            && whole.armed == ScanGate(id, sweepOnly.row, tick.now, tick.io, d.armed).armed
            && checkOnly.armed == ScanGate(id, d.row, tick.now, tick.io, d.armed).armed
            && WritesWhatFires(d.row, ScanGate(id, d.row, tick.now, tick.io, d.armed).fired, tick.io, checkOnly.row))
  {
  }

  // ---------- the worker ----------

  class GateTtlWorker {
    var rows: Table
    var armed: Armed
    const ttlSeconds: int

    constructor (rows: Table, ttlSeconds: int)
      ensures this.rows == rows && armed == map[] && this.ttlSeconds == ttlSeconds
    {
      this.rows, this.armed, this.ttlSeconds := rows, map[], ttlSeconds;
    }

    /** The single entry point of device reports: the first matching rule may override the status. */
    method ProcessGateStatus(f: Formats, id: string, rules: seq<StatusRule>, raw: string, meta: map<string, Json>,
                             now: int, writeOk: bool)
      returns (ok: bool)
      modifies this`rows
      ensures ok == writeOk
      ensures ok ==> var override := Override(f, rules, meta);
                     rows == UpdateStatus(old(rows), id, if override.Some? then override.value else raw, meta, now)
      ensures !ok || id !in old(rows) ==> rows == old(rows)
      ensures ok && id in old(rows) ==>
        && rows.Keys == old(rows).Keys
        && (forall other :: other in rows && other != id ==> rows[other] == old(rows)[other])
        && var row, before := rows[id], old(rows)[id];
        && row == Row(row.status, Some(now), meta, before.ttlSeconds, before.transitions)
        && ((row.status == raw && forall i :: !Decides(f, rules, meta, i))
            || exists i :: Decides(f, rules, meta, i) && row.status == rules[i].setStatus)
    {
      var finalStatus := raw;
      var override := EvaluateStatusRules(f, rules, meta);
      if override.Some? {
        finalStatus := override.value;
      }
      if !writeOk {
        return false;
      }
      rows := UpdateStatus(rows, id, finalStatus, meta, now);
      return true;
    }

    method MarkExpired(now: int, ok: bool) returns (affected: set<string>)
      modifies this`rows
      ensures !ok ==> rows == old(rows) && affected == {}
      ensures ok ==> rows == MarkUnresponsive(old(rows), now, ttlSeconds)
                     && affected == set id | id in old(rows) && Expired(old(rows)[id], now, ttlSeconds)
      ensures rows.Keys == old(rows).Keys && affected <= rows.Keys
      ensures ok ==> forall id :: id in rows ==>
        var row := old(rows)[id];
        var ttl := if row.ttlSeconds.Some? then row.ttlSeconds.value else ttlSeconds;
        && (id in affected
            <==> row.lastSeen.Some? && now - row.lastSeen.value > ttl * 1_000_000
                 && row.status != "unresponsive" && row.status != "unknown" && row.status != "offline")
        && rows[id] == if id in affected then row.(status := "unresponsive") else row
    {
      if !ok {
        return {};
      }
      affected := set id | id in rows && Expired(rows[id], now, ttlSeconds);
      rows := MarkUnresponsive(rows, now, ttlSeconds);
    }

    method ListTransitionCandidates() returns (gates: Listing)
      ensures Lists(rows, gates)
      ensures forall id :: id in rows ==>
        ((id, rows[id]) in gates <==> rows[id].transitions != [] && rows[id].lastSeen.Some?)
    {
      gates := [];
      var left := set id | id in rows && Candidate(rows[id]);
      while left != {}
        invariant forall id :: id in left ==> id in rows && Candidate(rows[id])
        invariant forall i :: 0 <= i < |gates| ==>
          gates[i].0 in rows && gates[i].1 == rows[gates[i].0] && Candidate(gates[i].1) && gates[i].0 !in left
        invariant forall i, j :: 0 <= i < j < |gates| ==> gates[i].0 != gates[j].0
        invariant forall id :: id in rows && Candidate(rows[id]) ==> id in left || (id, rows[id]) in gates
        decreases left
      {
        var id :| id in left;
        gates := gates + [(id, rows[id])];
        left := left - {id};
      }
    }

    /** The inner loop: one listed gate. */
    method CheckGate(id: string, g: Row, now: int, io: nat -> Io)
      requires g.lastSeen.Some?
      modifies this
      ensures armed == ScanGate(id, g, now, io, old(armed)).armed
      ensures rows == WriteFired(id, g, ScanGate(id, g, now, io, old(armed)), io, old(rows))
      ensures
        var r := ScanGate(id, g, now, io, old(armed));
        if r.fired.None? || id !in old(rows) then rows == old(rows) else
          var k, before := r.fired.value, old(rows)[id];
          var fired := Row(g.transitions[k].to, Some(io(k).writeAt), g.meta, before.ttlSeconds, before.transitions);
          rows == old(rows)[id := fired]
    {
      var i := 0;
      while i < |g.transitions|
        invariant 0 <= i <= |g.transitions| && rows == old(rows)
        invariant ScanGate(id, g, now, io, old(armed)) == ScanFrom(id, g, i, now, io, armed)
      {
        var t := g.transitions[i];
        var key := TransitionKey(id, t.from, t.to);
        if g.status != t.from {
          if !t.persistOnChange {
            armed := Del(armed, key, io(i).delOk);
            i := i + 1;
            continue;
          }
          if !io(i).getOk || key !in armed || now < armed[key] + AfterMicros(t.afterSeconds) {
            i := i + 1;
            continue;
          }
          armed := Del(armed, key, io(i).delOk);
        } else {
          if t.persistOnChange {
            armed := Set(armed, key, g.lastSeen.value, io(i).setOk);
          }
          if now < g.lastSeen.value + AfterMicros(t.afterSeconds) {
            i := i + 1;
            continue;
          }
          armed := Del(armed, key, io(i).delOk);
        }
        if io(i).writeOk {
          rows := UpdateStatus(rows, id, t.to, g.meta, io(i).writeAt);
          return;
        }
        i := i + 1;
      }
    }

    /** The outer loop. Whatever order the rows were listed in, every candidate ends as if scanned
        alone, and the other gates keep their rows and keys. */
    method CheckTransitions(now: int, listOk: bool, io: string -> nat -> Io)
      requires ColonFreeIds(rows)
      modifies this
      ensures !listOk ==> rows == old(rows) && armed == old(armed)
      ensures rows.Keys == old(rows).Keys
      ensures listOk ==> forall id :: id in old(rows) && Candidate(old(rows)[id]) ==>
        AsIfAlone(id, old(rows)[id], now, io(id), old(rows), old(armed), rows, armed)
      ensures listOk ==> forall id :: ':' !in id && !(id in old(rows) && Candidate(old(rows)[id])) ==>
        OwnKeysAgree(id, armed, old(armed)) && (id in old(rows) ==> rows[id] == old(rows)[id])
    {
      if !listOk {
        return;
      }
      var gates := ListTransitionCandidates();
      var i := 0;
      while i < |gates|
        invariant 0 <= i <= |gates|
        invariant CheckAll(gates, now, io, old(rows), old(armed)) == CheckAll(gates[i..], now, io, rows, armed)
      {
        var (id, g) := gates[i];
        assert gates[i..][0] == gates[i] && gates[i..][1..] == gates[i + 1..];
        if g.lastSeen.None? {
          i := i + 1;
          continue;
        }
        CheckGate(id, g, now, io(id));
        i := i + 1;
      }
      CheckAllIsPerGate(gates, now, io, old(rows), old(armed));
    }

    /** One round of the worker loop, as every single gate experiences it: a failed sweep does not stop the check. */
    method RunOnce(expiry: int, sweepOk: bool, now: int, listOk: bool, io: string -> nat -> Io)
      requires ColonFreeIds(rows)
      modifies this
      ensures rows.Keys == old(rows).Keys
      ensures forall id :: id in old(rows) ==>
        var tick := Tick(expiry, now, io(id));
        var d := RoundGate(id, Standing(old(rows)[id], old(armed)), ttlSeconds, tick, sweepOk, listOk);
        rows[id] == d.row && OwnKeysAgree(id, armed, d.armed)
    {
      var _ := MarkExpired(expiry, sweepOk);
      label swept:
      CheckTransitions(now, listOk, io);
      forall id | id in old(rows)
        ensures
          var tick := Tick(expiry, now, io(id));
          var d := RoundGate(id, Standing(old(rows)[id], old(armed)), ttlSeconds, tick, sweepOk, listOk);
          rows[id] == d.row && OwnKeysAgree(id, armed, d.armed)
      {
        assert old@swept(rows)[id] == if sweepOk then ExpireRow(old(rows)[id], expiry, ttlSeconds) else old(rows)[id];
      }
    }
  }
}
