/** The gates table: the columns that drive a gate's status, and the statements that write them.
    Instants are whole microseconds, the precision of a stored timestamp and of an armed key. */
module GateRow {
  import opened Prelude
  import opened Payload

  const SECOND := 1_000_000
  const OFFLINE_THRESHOLD := 300 * SECOND

  const UNKNOWN := "unknown"
  const OFFLINE := "offline"
  const UNRESPONSIVE := "unresponsive"

  datatype Transition = Transition(from: string, to: string, afterSeconds: int, persistOnChange: bool)

  datatype Row = Row(status: string, lastSeen: Option<int>, meta: map<string, Json>,
                     ttlSeconds: Option<int>, transitions: seq<Transition>)

  type Table = map<string, Row>

  /** A freshly inserted gate: column defaults until its first status report. */
  function NewRow(ttlSeconds: Option<int>, transitions: seq<Transition>): Row {
    Row(UNKNOWN, None, map[], ttlSeconds, transitions)
  }

  function Touch(row: Row, status: string, meta: map<string, Json>, now: int): Row {
    row.(status := status, lastSeen := Some(now), meta := meta)
  }

  /** UpdateStatus: unconditional, and silently without effect on a missing row. */
  function UpdateStatus(table: Table, id: string, status: string, meta: map<string, Json>, now: int): Table {
    if id in table then table[id := Touch(table[id], status, meta, now)] else table
  }

  function Ttl(row: Row, defaultSeconds: int): int {
    SECOND * if row.ttlSeconds.Some? then row.ttlSeconds.value else defaultSeconds
  }

  predicate Exempt(status: string) {
    status == UNRESPONSIVE || status == UNKNOWN || status == OFFLINE
  }

  predicate Expired(row: Row, now: int, defaultSeconds: int) {
    row.lastSeen.Some? && row.lastSeen.value < now - Ttl(row, defaultSeconds) && !Exempt(row.status)
  }

  function ExpireRow(row: Row, now: int, defaultSeconds: int): Row {
    if Expired(row, now, defaultSeconds) then row.(status := UNRESPONSIVE) else row
  }

  /** The single statement behind MarkUnresponsiveWithIDs. */
  function MarkUnresponsive(table: Table, now: int, defaultSeconds: int): Table {
    map id | id in table :: ExpireRow(table[id], now, defaultSeconds)
  }

  /** The rows that ListTransitionCandidates selects. */
  predicate Candidate(row: Row) {
    row.transitions != [] && row.lastSeen.Some?
  }

  /** The status shown to users, computed from the stored one and the time since the last report. */
  function EffectiveStatus(row: Row, now: int): string {
    if row.lastSeen.None? then UNKNOWN
    else if now - row.lastSeen.value > OFFLINE_THRESHOLD then OFFLINE
    else row.status
  }

  /** What users see: unknown before the first report, offline once five minutes have passed since the last one,
      and until then whatever is stored. */
  lemma DisplayFollowsTheLastReport(row: Row, now: int, ttlSeconds: Option<int>, transitions: seq<Transition>)
    ensures row.lastSeen.None? ==> EffectiveStatus(row, now) == "unknown"
    ensures row.lastSeen.Some? && now - row.lastSeen.value > 300_000_000 ==> EffectiveStatus(row, now) == "offline"
    ensures row.lastSeen.Some? && now - row.lastSeen.value <= 300_000_000 ==> EffectiveStatus(row, now) == row.status
    ensures EffectiveStatus(NewRow(ttlSeconds, transitions), now) == NewRow(ttlSeconds, transitions).status == "unknown"
  {
  }
}
