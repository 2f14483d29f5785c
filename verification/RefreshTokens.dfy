/** One-time refresh tokens: what is stored with each, how one is redeemed for the next, and what that keeps. */
module RefreshTokens {
  import opened Prelude
  import opened Payload

  const NANOS := 1_000_000_000
  const DEFAULT_SESSION := 7 * 24 * 3600 * NANOS

  const MANAGE := "gate:manage"

  datatype Session = Member(id: string) | PinSession(pin: string, gate: string, permissions: seq<string>)

  /** uuid.Parse, giving the canonical form of an identifier. */
  type Uuid = string -> Option<string>

  predicate Canonical(uuid: Uuid, id: string) {
    uuid(id) == Some(id)
  }

  predicate WellFormed(uuid: Uuid, s: Session) {
    match s
    case Member(id) => Canonical(uuid, id)
    case PinSession(pin, gate, _) => Canonical(uuid, pin) && Canonical(uuid, gate)
  }

  // ---------- the stored payload ----------

  /** Duration.Seconds() */
  function Seconds(nanos: int): Json {
    Num(Finite(nanos as real / NANOS as real))
  }

  function Texts(items: seq<string>): Json {
    Arr(seq(|items|, i requires 0 <= i < |items| => Str(items[i])))
  }

  function Encode(s: Session, role: string, duration: int): map<string, Json> {
    match s
    case Member(id) =>
      map["type" := Str("member"), "sub" := Str(id), "role" := Str(role), "session_duration" := Seconds(duration)]
    case PinSession(pin, gate, permissions) =>
      map["type" := Str("pin_session"), "sub" := Str(pin), "gate_id" := Str(gate),
          "permissions" := Texts(permissions), "session_duration" := Seconds(duration)]
  }

  function TextAt(payload: map<string, Json>, key: string): Option<string> {
    if key in payload && payload[key].Str? then Some(payload[key].s) else None
  }

  function IdAt(uuid: Uuid, payload: map<string, Json>, key: string): Option<string> {
    var text := TextAt(payload, key);
    if text.None? then None else uuid(text.value)
  }

  function OnlyTexts(items: seq<Json>): seq<string> {
    if |items| == 0 then []
    else (if items[0].Str? then [items[0].s] else []) + OnlyTexts(items[1..])
  }

  /** payloadSessionDuration: zero means endless, fractions of a second are cut off, anything else falls back. */
  function StoredDuration(payload: map<string, Json>): int {
    if "session_duration" !in payload then DEFAULT_SESSION
    else match payload["session_duration"]
      case Num(Finite(secs)) =>
        if secs == 0.0 then 0 else if secs > 0.0 then secs.Floor * NANOS else DEFAULT_SESSION
      case _ => DEFAULT_SESSION
  }

  /** The session a stored payload stands for, and how long its next token will live. */
  function Decode(uuid: Uuid, payload: map<string, Json>): Option<(Session, int)> {
    var typ := TextAt(payload, "type");
    var sub := IdAt(uuid, payload, "sub");
    if typ == Some("member") && sub.Some? then
      Some((Member(sub.value), StoredDuration(payload)))
    else if typ == Some("pin_session") && sub.Some? && IdAt(uuid, payload, "gate_id").Some? then
      var listed := "permissions" in payload && payload["permissions"].Arr?;
      var permissions := if listed then OnlyTexts(payload["permissions"].items) else [];
      Some((PinSession(sub.value, IdAt(uuid, payload, "gate_id").value, permissions), StoredDuration(payload)))
    else
      None
  }

  /** What a refresh makes of a session's duration. */
  function Refreshed(duration: int): int {
    if duration == 0 then 0 else if duration > 0 then duration / NANOS * NANOS else DEFAULT_SESSION
  }

  lemma {:induction false} TextsSurvive(items: seq<string>)
    ensures OnlyTexts(Texts(items).items) == items
    decreases |items|
  {
    if |items| > 0 {
      assert Texts(items).items[1..] == Texts(items[1..]).items;
      TextsSurvive(items[1..]);
    }
  }

  /** Decoding returns the very session that was encoded; its duration is cut to whole seconds. */
  lemma DecodeEncode(uuid: Uuid, s: Session, role: string, duration: int)
    requires WellFormed(uuid, s)
    ensures Decode(uuid, Encode(s, role, duration)) == Some((s, Refreshed(duration)))
  {
    var secs := duration as real / NANOS as real;
    assert secs == 0.0 <==> duration == 0;
    assert secs > 0.0 <==> duration > 0;
    FloorOfQuotient(duration);
    if s.PinSession? {
      TextsSurvive(s.permissions);
    }
  }

  /** A member's payload also carries the role it was issued with. */
  lemma EncodeKeepsTheRole(id: string, role: string, duration: int)
    ensures TextAt(Encode(Member(id), role, duration), "role") == Some(role)
  {
  }

  /** Exactly two kinds of payload are understood, and only with well-formed identifiers. */
  lemma OtherPayloadsAreRefused(uuid: Uuid, payload: map<string, Json>)
    ensures Decode(uuid, payload).Some? <==>
      && "type" in payload && "sub" in payload && payload["sub"].Str? && uuid(payload["sub"].s).Some?
      && (payload["type"] == Str("member")
          || (payload["type"] == Str("pin_session")
              && "gate_id" in payload && payload["gate_id"].Str? && uuid(payload["gate_id"].s).Some?))
    ensures Decode(uuid, payload).Some? ==>
      Decode(uuid, payload).value.0.Member? == (payload["type"] == Str("member"))
  {
  }

  /** Of a stored list of permissions exactly the texts are read. */
  lemma {:induction false} OnlyTextsAreRead(items: seq<Json>, p: string)
    ensures p in OnlyTexts(items) <==> Str(p) in items
    decreases |items|
  {
    if |items| > 0 {
      OnlyTextsAreRead(items[1..], p);
    }
  }

  /** Whole seconds of what is stored; a week where nothing usable is stored. */
  lemma StoredDurationsAreRead(payload: map<string, Json>, secs: real)
    ensures "session_duration" !in payload ==> StoredDuration(payload) == 604_800_000_000_000
    ensures "session_duration" in payload && !payload["session_duration"].Num? ==>
      StoredDuration(payload) == 604_800_000_000_000
    ensures "session_duration" in payload && payload["session_duration"] == Num(Finite(secs)) ==>
      && (secs < 0.0 ==> StoredDuration(payload) == 604_800_000_000_000)
      && (secs >= 0.0 ==> StoredDuration(payload) == secs.Floor * 1_000_000_000)
  {
  }

  lemma FloorOfQuotient(x: int)
    ensures (x as real / NANOS as real).Floor == x / NANOS
  {
    var q := x / NANOS;
    assert q * NANOS <= x < (q + 1) * NANOS;
    assert q as real * NANOS as real <= x as real < (q + 1) as real * NANOS as real;
    assert q as real <= x as real / NANOS as real < (q + 1) as real;
  }

  /** A duration survives refreshing exactly when it is endless or a whole number of seconds;
      whatever the first refresh makes of it, later ones keep. */
  lemma DurationSurvivesIffWholeSeconds(duration: int)
    ensures Refreshed(duration) == duration <==> duration >= 0 && duration % NANOS == 0
    ensures Refreshed(Refreshed(duration)) == Refreshed(duration)
    ensures 0 < duration < NANOS ==> Refreshed(duration) == 0
  {
    assert duration == duration / NANOS * NANOS + duration % NANOS;
  }

  /** One stored refresh token. */
  datatype Slot = Slot(payload: map<string, Json>, deadline: Option<int>)

  /** Redis drops a key at its deadline; no positive duration means no deadline. */
  predicate Readable(slot: Slot, now: int) {
    slot.deadline.None? || now < slot.deadline.value
  }

  function NewSlot(s: Session, role: string, duration: int, now: int): Slot {
    Slot(Encode(s, role, duration), if duration > 0 then Some(now + duration) else None)
  }

  function Put<T>(live: map<string, T>, token: string, slot: T, stored: bool): map<string, T> {
    if stored then live[token := slot] else live
  }

  // ---------- the token store over a run ----------

  /** A stored refresh token, and the login or PIN session it descends from. */
  datatype Entry = Entry(slot: Slot, line: nat)

  /** What a session was when it began. */
  datatype Origin = Origin(session: Session, duration: int)

  datatype State = State(clock: int, live: map<string, Entry>, flights: map<string, Entry>,
                         used: set<string>, redeemed: seq<string>, origins: seq<Origin>)

  /** Requests interleave freely: a refresh is a redemption and, some time later, a reissue or nothing.
      A failing store call may or may not have stored the new token, a redemption whose reply is lost may or
      may not have consumed the old one, and a revocation may fail unnoticed. */
  datatype Event =
    | Start(session: Session, role: string, duration: int, token: string, stored: bool, at: int)
    | Redeem(token: string, at: int, reply: Reply)
    | Reissue(token: string, role: string, next: string, stored: bool, at: int)
    | Abandon(token: string)
    | Revoke(token: string, deleted: bool)

  function Init(): State {
    State(0, map[], map[], {}, [], [])
  }

  /** Random tokens are taken to be new each time. */
  predicate Enabled(uuid: Uuid, s: State, e: Event) {
    match e
    case Start(session, _, _, token, _, at) => WellFormed(uuid, session) && token !in s.used && s.clock <= at
    case Redeem(_, at, _) => s.clock <= at
    case Reissue(token, _, next, _, at) => token in s.flights && next !in s.used && s.clock <= at
    case Abandon(token) => token in s.flights
    case Revoke(_, _) => true
  }

  function Step(uuid: Uuid, s: State, e: Event): State {
    match e
    case Start(session, role, duration, token, stored, at) =>
      s.(clock := at, used := s.used + {token}, origins := s.origins + [Origin(session, duration)],
         live := Put(s.live, token, Entry(NewSlot(session, role, duration, at), |s.origins|), stored))
    case Redeem(token, at, reply) =>
      if reply.Lost? then s.(clock := at, live := if reply.applied then s.live - {token} else s.live)
      else if token in s.live && Readable(s.live[token].slot, at) then
        s.(clock := at, live := s.live - {token}, flights := s.flights[token := s.live[token]],
           redeemed := s.redeemed + [token])
      else s.(clock := at)
    case Reissue(token, role, next, stored, at) =>
      if token !in s.flights then s else
      var entry := s.flights[token];
      var decoded := Decode(uuid, entry.slot.payload);
      if decoded.None? then s.(clock := at, flights := s.flights - {token}) else
      var (session, duration) := decoded.value;
      s.(clock := at, used := s.used + {next}, flights := s.flights - {token},
         live := Put(s.live, next, Entry(NewSlot(session, role, duration, at), entry.line), stored))
    case Abandon(token) => s.(flights := s.flights - {token})
    case Revoke(token, deleted) => if deleted then s.(live := s.live - {token}) else s
  }

  /** Nothing but the clock limits when tokens are redeemed and revoked, and each redemption under way may be given
      up. One whose reply is lost consumes the token exactly if it was carried out, and never leads to a session. */
  lemma RedemptionsMayFailAnyTime(uuid: Uuid, s: State, token: string, at: int, reply: Reply, deleted: bool)
    ensures Enabled(uuid, s, Redeem(token, at, reply)) <==> at >= s.clock
    ensures Enabled(uuid, s, Abandon(token)) <==> token in s.flights
    ensures Enabled(uuid, s, Revoke(token, deleted))
    ensures reply.Lost? ==>
      var s' := Step(uuid, s, Redeem(token, at, reply));
      && s'.flights == s.flights && s'.redeemed == s.redeemed
      && (forall t :: t in s'.live <==> t in s.live && !(t == token && reply.applied))
      && (forall t :: t in s'.live ==> s'.live[t] == s.live[t])
    ensures
      var s' := Step(uuid, s, Abandon(token));
      && s'.live == s.live && s'.redeemed == s.redeemed
      && (forall t :: t in s'.flights <==> t in s.flights && t != token)
  {
  }

  function Exec(uuid: Uuid, s: State, es: seq<Event>): State
    decreases |es|
  {
    if |es| == 0 then s else Exec(uuid, Step(uuid, s, es[0]), es[1..])
  }

  ghost predicate Run(uuid: Uuid, s: State, es: seq<Event>)
    decreases |es|
  {
    |es| == 0 || (Enabled(uuid, s, es[0]) && Run(uuid, Step(uuid, s, es[0]), es[1..]))
  }

  ghost predicate Faithful(uuid: Uuid, s: State, e: Entry) {
    && e.line < |s.origins|
    && var o := s.origins[e.line]; Decode(uuid, e.slot.payload) == Some((o.session, Refreshed(o.duration)))
  }

  /** Tokens are used once, and no two tokens or pending redemptions share a session. */
  ghost predicate Apart(s: State) {
    && s.live.Keys <= s.used && s.flights.Keys <= s.used
    && s.live.Keys !! s.flights.Keys
    && (forall i :: 0 <= i < |s.redeemed| ==> s.redeemed[i] in s.used && s.redeemed[i] !in s.live)
    && (forall i, j :: 0 <= i < j < |s.redeemed| ==> s.redeemed[i] != s.redeemed[j])
    && (forall t :: t in s.live ==> s.live[t].line < |s.origins|)
    && (forall t :: t in s.flights ==> s.flights[t].line < |s.origins|)
    && (forall t, u :: t in s.live && u in s.live && t != u ==> s.live[t].line != s.live[u].line)
    && (forall t, u :: t in s.flights && u in s.flights && t != u ==> s.flights[t].line != s.flights[u].line)
    && (forall t, u :: t in s.live && u in s.flights ==> s.live[t].line != s.flights[u].line)
  }

  ghost predicate Truthful(uuid: Uuid, s: State) {
    && (forall i :: 0 <= i < |s.origins| ==> WellFormed(uuid, s.origins[i].session))
    && (forall t :: t in s.live ==> Faithful(uuid, s, s.live[t]))
    && (forall t :: t in s.flights ==> Faithful(uuid, s, s.flights[t]))
  }

  ghost predicate LineIsFree(s: State, line: nat) {
    && (forall t :: t in s.live ==> s.live[t].line != line)
    && (forall t :: t in s.flights ==> s.flights[t].line != line)
  }

  lemma PutKeepsApart(s: State, s': State, token: string, e: Entry, stored: bool)
    requires Apart(s) && token !in s.used && LineIsFree(s, e.line)
    requires e.line < |s'.origins| && |s.origins| <= |s'.origins|
    requires s' == s.(clock := s'.clock, origins := s'.origins, used := s.used + {token},
                      live := Put(s.live, token, e, stored))
    ensures Apart(s')
  {
  }

  lemma TakeKeepsApart(s: State, s': State, token: string)
    requires Apart(s) && token in s.live
    requires s' == s.(clock := s'.clock, live := s.live - {token}, flights := s.flights[token := s.live[token]],
                      redeemed := s.redeemed + [token])
    ensures Apart(s')
  {
  }

  lemma DropKeepsApart(s: State, s': State, token: string)
    requires Apart(s)
    requires s' == s.(clock := s'.clock, flights := s.flights - {token}) || s' == s.(live := s.live - {token})
    ensures Apart(s')
    ensures s' == s.(clock := s'.clock, flights := s.flights - {token}) && token in s.flights ==>
      LineIsFree(s', s.flights[token].line)
  {
  }

  lemma StepKeepsApart(uuid: Uuid, s: State, e: Event)
    requires Apart(s) && Enabled(uuid, s, e)
    ensures Apart(Step(uuid, s, e))
  {
    var s' := Step(uuid, s, e);
    match e
    case Start(session, role, duration, token, stored, at) =>
      PutKeepsApart(s, s', token, Entry(NewSlot(session, role, duration, at), |s.origins|), stored);
    case Redeem(token, at, reply) =>
      if reply.Lost? {
        DropKeepsApart(s, s.(live := s.live - {token}), token);
      } else if token in s.live && Readable(s.live[token].slot, at) {
        TakeKeepsApart(s, s', token);
      }
    case Reissue(token, role, next, stored, at) =>
      var s1 := s.(clock := at, flights := s.flights - {token});
      DropKeepsApart(s, s1, token);
      if Decode(uuid, s.flights[token].slot.payload).Some? {
        var (session, duration) := Decode(uuid, s.flights[token].slot.payload).value;
        PutKeepsApart(s1, s', next, Entry(NewSlot(session, role, duration, at), s.flights[token].line), stored);
      }
    case Abandon(token) =>
      DropKeepsApart(s, s', token);
    case Revoke(token, deleted) =>
      if deleted {
        DropKeepsApart(s, s', token);
      }
  }

  lemma PutKeepsTruthful(uuid: Uuid, s: State, s': State, token: string, e: Entry, stored: bool)
    requires Truthful(uuid, s) && Faithful(uuid, s', e)
    requires s.origins <= s'.origins
    requires forall i :: |s.origins| <= i < |s'.origins| ==> WellFormed(uuid, s'.origins[i].session)
    requires s'.live == Put(s.live, token, e, stored)
    requires forall t :: t in s'.flights ==> t in s.flights && s'.flights[t] == s.flights[t]
    ensures Truthful(uuid, s')
  {
    forall i | 0 <= i < |s'.origins|
      ensures WellFormed(uuid, s'.origins[i].session)
    {
      assert i < |s.origins| ==> s'.origins[i] == s.origins[i];
    }
    forall t | t in s.live
      ensures Faithful(uuid, s', s.live[t])
    {
      assert Faithful(uuid, s, s.live[t]);
    }
    forall t | t in s.flights
      ensures Faithful(uuid, s', s.flights[t])
    {
      assert Faithful(uuid, s, s.flights[t]);
    }
  }

  lemma ReissueKeepsTruthful(uuid: Uuid, s: State, s': State, token: string, role: string, next: string, stored: bool,
                             at: int)
    requires Truthful(uuid, s) && token in s.flights && s' == Step(uuid, s, Reissue(token, role, next, stored, at))
    ensures Truthful(uuid, s')
  {
    var entry := s.flights[token];
    assert Faithful(uuid, s, entry);
    var (session, duration) := Decode(uuid, entry.slot.payload).value;
    DecodeEncode(uuid, session, role, duration);
    DurationSurvivesIffWholeSeconds(s.origins[entry.line].duration);
    PutKeepsTruthful(uuid, s, s', next, Entry(NewSlot(session, role, duration, at), entry.line), stored);
  }

  lemma StartKeepsTruthful(uuid: Uuid, s: State, s': State, session: Session, role: string, duration: int,
                                              token: string, stored: bool, at: int)
    requires Truthful(uuid, s) && WellFormed(uuid, session)
    requires s' == Step(uuid, s, Start(session, role, duration, token, stored, at))
    ensures Truthful(uuid, s')
  {
    DecodeEncode(uuid, session, role, duration);
    PutKeepsTruthful(uuid, s, s', token, Entry(NewSlot(session, role, duration, at), |s.origins|), stored);
  }

  /** Entries that only move or go stay faithful. */
  lemma MovesKeepTruthful(uuid: Uuid, s: State, s': State)
    requires Truthful(uuid, s) && s'.origins == s.origins
    requires forall t :: t in s'.live ==> t in s.live && s'.live[t] == s.live[t]
    requires forall t :: t in s'.flights ==> s'.flights[t] in s.live.Values + s.flights.Values
    ensures Truthful(uuid, s')
  {
    forall t | t in s'.flights
      ensures Faithful(uuid, s', s'.flights[t])
    {
      if u :| u in s.live && s.live[u] == s'.flights[t] {
        assert Faithful(uuid, s, s.live[u]);
      } else {
        var u :| u in s.flights && s.flights[u] == s'.flights[t];
        assert Faithful(uuid, s, s.flights[u]);
      }
    }
    forall t | t in s'.live
      ensures Faithful(uuid, s', s'.live[t])
    {
      assert Faithful(uuid, s, s.live[t]);
    }
  }

  lemma StepKeepsTruthful(uuid: Uuid, s: State, e: Event)
    requires Truthful(uuid, s) && Enabled(uuid, s, e)
    ensures Truthful(uuid, Step(uuid, s, e))
  {
    var s' := Step(uuid, s, e);
    match e
    case Start(session, role, duration, token, stored, at) =>
      StartKeepsTruthful(uuid, s, s', session, role, duration, token, stored, at);
    case Reissue(token, role, next, stored, at) =>
      ReissueKeepsTruthful(uuid, s, s', token, role, next, stored, at);
    case _ =>
      MovesKeepTruthful(uuid, s, s');
  }

  ghost predicate Inv(uuid: Uuid, s: State) {
    Apart(s) && Truthful(uuid, s)
  }

  lemma {:induction false} RunKeepsInv(uuid: Uuid, s: State, es: seq<Event>)
    requires Inv(uuid, s) && Run(uuid, s, es)
    ensures Inv(uuid, Exec(uuid, s, es))
    decreases |es|
  {
    if |es| > 0 {
      StepKeepsApart(uuid, s, es[0]);
      StepKeepsTruthful(uuid, s, es[0]);
      RunKeepsInv(uuid, Step(uuid, s, es[0]), es[1..]);
    }
  }

  /** Under any interleaving a session never has more than one live token or redemption under way. */
  lemma OneTokenPerSession(uuid: Uuid, es: seq<Event>, line: nat)
    requires Run(uuid, Init(), es)
    ensures var s := Exec(uuid, Init(), es);
            |set t | t in s.live && s.live[t].line == line| + |set t | t in s.flights && s.flights[t].line == line| <= 1
  {
    RunKeepsInv(uuid, Init(), es);
    var s := Exec(uuid, Init(), es);
    var live := set t | t in s.live && s.live[t].line == line;
    var flights := set t | t in s.flights && s.flights[t].line == line;
    AtMostOne(live + flights);
    assert live !! flights;
  }

  lemma AtMostOne<T>(s: set<T>)
    requires forall x, y :: x in s && y in s ==> x == y
    ensures |s| <= 1
  {
    if s != {} {
      var x :| x in s;
      assert s == {x};
    }
  }

  /** Each token is redeemed at most once. */
  lemma RedeemedAtMostOnce(uuid: Uuid, es: seq<Event>, i: nat, j: nat)
    requires Run(uuid, Init(), es)
    requires i < j < |Exec(uuid, Init(), es).redeemed|
    ensures Exec(uuid, Init(), es).redeemed[i] != Exec(uuid, Init(), es).redeemed[j]
  {
    RunKeepsInv(uuid, Init(), es);
  }

  /** After any number of refreshes a stored token still stands for the subject, gate and permissions its
      session began with, and for its duration if that was endless or whole seconds. */
  lemma SessionIsKept(uuid: Uuid, es: seq<Event>, token: string)
    requires Run(uuid, Init(), es) && token in Exec(uuid, Init(), es).live
    ensures var s := Exec(uuid, Init(), es);
            && s.live[token].line < |s.origins|
            && var o := s.origins[s.live[token].line];
            && Decode(uuid, s.live[token].slot.payload) == Some((o.session, Refreshed(o.duration)))
            && (o.duration >= 0 && o.duration % NANOS == 0 ==> Refreshed(o.duration) == o.duration)
  {
    RunKeepsInv(uuid, Init(), es);
    var s := Exec(uuid, Init(), es);
    assert Faithful(uuid, s, s.live[token]);
    DurationSurvivesIffWholeSeconds(s.origins[s.live[token].line].duration);
  }

  lemma {:induction false} GoneTokensStayGone(uuid: Uuid, s: State, es: seq<Event>, token: string)
    requires Run(uuid, s, es) && token in s.used && token !in s.live
    ensures
      var s' := Exec(uuid, s, es);
      && token !in s'.live && s.redeemed <= s'.redeemed
      && (forall i :: |s.redeemed| <= i < |s'.redeemed| ==> s'.redeemed[i] != token)
    decreases |es|
  {
    if |es| > 0 {
      GoneTokensStayGone(uuid, Step(uuid, s, es[0]), es[1..], token);
    }
  }

  /** A revoked token is never redeemed again, whatever happens afterwards: once its deletion has been carried out
      it cannot be stored a second time. A refresh that had already redeemed it is not stopped. */
  lemma RevokedIsNeverRedeemed(uuid: Uuid, es: seq<Event>, token: string, es': seq<Event>)
    requires Run(uuid, Init(), es) && token in Exec(uuid, Init(), es).used
    requires Run(uuid, Step(uuid, Exec(uuid, Init(), es), Revoke(token, true)), es')
    ensures
      var s := Exec(uuid, Init(), es);
      var s' := Exec(uuid, Step(uuid, s, Revoke(token, true)), es');
      && token !in s'.live && s.redeemed <= s'.redeemed
      && (forall i :: |s.redeemed| <= i < |s'.redeemed| ==> s'.redeemed[i] != token)
  {
    GoneTokensStayGone(uuid, Step(uuid, Exec(uuid, Init(), es), Revoke(token, true)), es', token);
  }

  predicate NeverManages(s: Session) {
    s.PinSession? ==> MANAGE !in s.permissions
  }

  lemma {:induction false} OriginsComeFromStarts(uuid: Uuid, s: State, es: seq<Event>)
    requires forall e :: e in es && e.Start? ==> NeverManages(e.session)
    requires forall i :: 0 <= i < |s.origins| ==> NeverManages(s.origins[i].session)
    ensures forall i :: 0 <= i < |Exec(uuid, s, es).origins| ==> NeverManages(Exec(uuid, s, es).origins[i].session)
    decreases |es|
  {
    if |es| > 0 {
      assert es[0] in es;
      OriginsComeFromStarts(uuid, Step(uuid, s, es[0]), es[1..]);
    }
  }

  /** If no session starts with the management permission, no refresh ever yields it. */
  lemma RefreshNeverAddsManagement(uuid: Uuid, es: seq<Event>, token: string)
    requires Run(uuid, Init(), es) && token in Exec(uuid, Init(), es).live
    requires forall e :: e in es && e.Start? ==> NeverManages(e.session)
    ensures var decoded := Decode(uuid, Exec(uuid, Init(), es).live[token].slot.payload);
            decoded.Some? && NeverManages(decoded.value.0)
  {
    SessionIsKept(uuid, es, token);
    OriginsComeFromStarts(uuid, Init(), es);
  }

  // ---------- the service ----------

  datatype AuthError = InvalidToken | SigningFailed | StoreFailed

  datatype RefreshResult = RefreshResult(session: Session, next: string)

  function Slots(live: map<string, Entry>): map<string, Slot> {
    map t | t in live :: live[t].slot
  }

  /** A refresh of the token at this time would succeed in redeeming it. */
  predicate Redeemable(live: map<string, Slot>, token: string, now: int) {
    token in live && Readable(live[token], now)
  }

  /** A token can be redeemed until its session's duration has passed since it was stored, and for ever if that is
      not positive. */
  lemma TokensLastTheirDuration(live: map<string, Slot>, token: string, s: Session, role: string, duration: int,
                                now: int, at: int)
    ensures Redeemable(Put(live, token, NewSlot(s, role, duration, now), true), token, at)
      <==> duration <= 0 || at < now + duration
  {
  }

  class AuthService {
    var live: map<string, Slot>

    constructor ()
      ensures live == map[]
    {
      live := map[];
    }

    /** issueTokenPair and IssueGatePinSession: sign an access token, then store a new refresh token. */
    method Issue(s: Session, role: string, duration: int, token: string, now: int, signOk: bool, replyOk: bool,
                 stored: bool)
      returns (r: Result<string, AuthError>)
      requires replyOk ==> stored
      modifies this
      ensures live == Put(old(live), token, NewSlot(s, role, duration, now), signOk && stored)
      ensures r == if !signOk then Err(SigningFailed) else if !replyOk then Err(StoreFailed) else Ok(token)
      ensures forall t :: t != token ==> (t in live <==> t in old(live)) && (t in live ==> live[t] == old(live)[t])
      ensures signOk && stored ==>
        && token in live && live[token].payload == Encode(s, role, duration)
        && live[token].deadline == if duration > 0 then Some(now + duration) else None
    {
      if !signOk {
        return Err(SigningFailed);
      }
      live := Put(live, token, NewSlot(s, role, duration, now), stored);
      if !replyOk {
        return Err(StoreFailed);
      }
      return Ok(token);
    }

    /** Redeem a token for the next one of the same session. A readable token is gone whatever follows, and after
        a lost reply it may be gone for nothing. */
    method Refresh(uuid: Uuid, token: string, now: int, reply: Reply, roleOf: string -> Option<string>, next: string,
                   signOk: bool, replyOk: bool, stored: bool)
      returns (r: Result<RefreshResult, AuthError>)
      requires replyOk ==> stored
      modifies this
      ensures reply.Lost? ==>
        r == Err(InvalidToken) && live == if reply.applied then old(live) - {token} else old(live)
      ensures reply.Answered? && !Redeemable(old(live), token, now) ==> r == Err(InvalidToken) && live == old(live)
      ensures reply.Answered? && Redeemable(old(live), token, now) ==>
        var decoded := Decode(uuid, old(live)[token].payload);
        if decoded.None? || (decoded.value.0.Member? && roleOf(decoded.value.0.id).None?) then
          r == Err(InvalidToken) && live == old(live) - {token}
        else
          var (s, duration) := decoded.value;
          var role := if s.Member? then roleOf(s.id).value else "";
          && live == Put(old(live) - {token}, next, NewSlot(s, role, duration, now), signOk && stored)
          && r == if !signOk then Err(SigningFailed)
                  else if !replyOk then Err(StoreFailed)
                  else Ok(RefreshResult(s, next))
    {
      if reply.Lost? {
        live := if reply.applied then live - {token} else live;
        return Err(InvalidToken);
      }
      if token !in live || !Readable(live[token], now) {
        return Err(InvalidToken);
      }
      var payload := live[token].payload;
      live := live - {token};
      var decoded := Decode(uuid, payload);
      if decoded.None? {
        return Err(InvalidToken);
      }
      var (s, duration) := decoded.value;
      var role := "";
      if s.Member? {
        var found := roleOf(s.id);
        if found.None? {
          return Err(InvalidToken);
        }
        role := found.value;
      }
      var issued := Issue(s, role, duration, next, now, signOk, replyOk, stored);
      if issued.Err? {
        return Err(issued.error);
      }
      return Ok(RefreshResult(s, next));
    }

    /** Unless its deletion fails, the token can never be redeemed; every other one can, just as before. */
    method RevokeRefreshToken(token: string, deleted: bool)
      modifies this
      ensures forall now :: Redeemable(live, token, now) <==> !deleted && Redeemable(old(live), token, now)
      ensures forall t, now :: t != token ==> (Redeemable(live, t, now) <==> Redeemable(old(live), t, now))
      ensures forall t :: t in live ==> t in old(live) && live[t] == old(live)[t]
    {
      if deleted {
        live := live - {token};
      }
    }
  }

  lemma PutSlots(live: map<string, Entry>, token: string, e: Entry, stored: bool)
    ensures Slots(Put(live, token, e, stored)) == Put(Slots(live), token, e.slot, stored)
    ensures Slots(live - {token}) == Slots(live) - {token}
  {
  }

  /** A refresh that is answered at once changes the stored tokens exactly as its two events do. */
  lemma RefreshIsRedeemThenReissue(uuid: Uuid, s: State, token: string, session: Session, duration: int,
                                                      role: string, next: string, stored: bool, at: int)
    requires Apart(s) && token in s.live && Readable(s.live[token].slot, at)
    requires Decode(uuid, s.live[token].slot.payload) == Some((session, duration))
    ensures var s' := Step(uuid, Step(uuid, s, Redeem(token, at, Answered)), Reissue(token, role, next, stored, at));
            && Slots(s'.live) == Put(Slots(s.live) - {token}, next, NewSlot(session, role, duration, at), stored)
            && s'.flights == s.flights
  {
    var s1 := Step(uuid, s, Redeem(token, at, Answered));
    assert s1.flights[token] == s.live[token] && s1.live == s.live - {token};
    assert s1.flights - {token} == s.flights;
    var entry := Entry(NewSlot(session, role, duration, at), s.live[token].line);
    PutSlots(s.live, token, entry, stored);
    PutSlots(s.live - {token}, next, entry, stored);
  }
}
