/** PIN entry at a gate: its two attempt counters, the use counter, and the session a PIN opens. */
module PinAccess {
  import opened Prelude
  import opened RateLimit
  import opened RefreshTokens

  /** A quarter of an hour. Instants are nanoseconds here, as for sessions. */
  const PIN_WINDOW := 900 * NANOS

  datatype PinMeta = PinMeta(
    sessionSeconds: Option<int>, maxUses: Option<int>, permissions: seq<string>, expiresAt: Option<int>)

  datatype Pin = Pin(id: string, hash: string, meta: PinMeta)

  datatype PinError =
    | TooManyAttempts | ListFailed | InvalidPin | ScheduleDenied | MaxUsesExceeded
    | SessionFailed(error: AuthError) | InvalidSession | MissingPermission

  // ---------- attempts ----------

  function IpKey(gate: string, ip: string): string {
    "rl:unlock:" + (gate + [':'] + ip)
  }

  function GateKey(gate: string): string {
    "rl:unlock:" + ("gate" + [':'] + gate)
  }

  /** Gate ids are UUIDs: no colon, and not the word that marks the per-gate counters. */
  predicate GateId(gate: string) {
    ':' !in gate && gate != "gate"
  }

  lemma CountersAreApart(gate: string, ip: string, gate': string)
    requires GateId(gate)
    ensures IpKey(gate, ip) != GateKey(gate')
  {
    if IpKey(gate, ip) == GateKey(gate') {
      assert gate + [':'] + ip == IpKey(gate, ip)[10..] == GateKey(gate')[10..] == "gate" + [':'] + gate';
      JoinIsUnique(':', gate, ip, "gate", gate');
    }
  }

  /** Each gate has its counter, and each address its own at each gate. */
  lemma CountersAreTheirOwn(gate: string, ip: string, gate': string, ip': string)
    requires GateId(gate) && GateId(gate')
    ensures GateKey(gate) == GateKey(gate') <==> gate == gate'
    ensures IpKey(gate, ip) == IpKey(gate', ip') <==> gate == gate' && ip == ip'
  {
    assert GateKey(gate)[10..][5..] == gate && GateKey(gate')[10..][5..] == gate';
    assert IpKey(gate, ip)[10..] == gate + [':'] + ip && IpKey(gate', ip')[10..] == gate' + [':'] + ip';
    if IpKey(gate, ip) == IpKey(gate', ip') {
      JoinIsUnique(':', gate, ip, gate', ip');
    }
  }

  function AttemptStore(store: Store, gate: string, ip: string, at: int, reply: Reply): Store {
    Apply(Apply(store, Hit(IpKey(gate, ip), at, reply), PIN_WINDOW), Hit(GateKey(gate), at, reply), PIN_WINDOW)
  }

  /** The attempt goes on to have its PIN compared. */
  predicate Reaches(store: Store, gate: string, ip: string, at: int, reply: Reply, maxIp: int, maxGate: int) {
    && HitAdmitted(store, Hit(IpKey(gate, ip), at, reply), maxIp, PIN_WINDOW)
    && var store' := Apply(store, Hit(IpKey(gate, ip), at, reply), PIN_WINDOW);
    HitAdmitted(store', Hit(GateKey(gate), at, reply), maxGate, PIN_WINDOW)
  }

  /** Attempts at any gates from any addresses, and the clearing of an address's counter on success. */
  datatype Event = Attempt(gate: string, ip: string, at: int, reply: Reply) | Cleared(gate: string, ip: string)

  function OpsOf(e: Event): seq<Op> {
    match e
    case Attempt(gate, ip, at, reply) => [Hit(IpKey(gate, ip), at, reply), Hit(GateKey(gate), at, reply)]
    case Cleared(gate, ip) => [Drop(IpKey(gate, ip))]
  }

  function Ops(es: seq<Event>): seq<Op> {
    if |es| == 0 then [] else OpsOf(es[0]) + Ops(es[1..])
  }

  function StepStore(store: Store, e: Event): Store {
    match e
    case Attempt(gate, ip, at, reply) => AttemptStore(store, gate, ip, at, reply)
    case Cleared(gate, ip) => store - {IpKey(gate, ip)}
  }

  /** How many attempts at the gate between two instants have their PIN compared. */
  function Compared(store: Store, es: seq<Event>, gate: string, maxIp: int, maxGate: int, from: int, until: int): nat
    decreases |es|
  {
    if |es| == 0 then 0 else
      var e := es[0];
      var here := e.Attempt? && e.gate == gate && from <= e.at <= until;
      (if here && Reaches(store, gate, e.ip, e.at, e.reply, maxIp, maxGate) then 1 else 0)
      + Compared(StepStore(store, e), es[1..], gate, maxIp, maxGate, from, until)
  }

  function StoreAfter(store: Store, es: seq<Event>): Store
    decreases |es|
  {
    if |es| == 0 then store else StoreAfter(StepStore(store, es[0]), es[1..])
  }

  /** Each attempt at the gate within the interval counts once if it is compared, and nothing else counts. */
  lemma {:induction false} ComparisonsAreCounted(store: Store, es: seq<Event>, e: Event, gate: string, maxIp: int,
                                                 maxGate: int, from: int, until: int)
    ensures
      var counts := e.Attempt? && e.gate == gate && from <= e.at && e.at <= until
        && Reaches(StoreAfter(store, es), gate, e.ip, e.at, e.reply, maxIp, maxGate);
      Compared(store, es + [e], gate, maxIp, maxGate, from, until)
      == Compared(store, es, gate, maxIp, maxGate, from, until) + (if counts then 1 else 0)
    decreases |es|
  {
    if |es| > 0 {
      ComparisonsAreCounted(StepStore(store, es[0]), es[1..], e, gate, maxIp, maxGate, from, until);
      assert (es + [e])[1..] == es[1..] + [e];
    } else {
      assert es + [e] == [e] && [e][1..] == [];
    }
  }

  ghost predicate InTime(es: seq<Event>, start: int)
    decreases |es|
  {
    |es| == 0 || ((es[0].Attempt? ==> start <= es[0].at) && InTime(es[1..], if es[0].Attempt? then es[0].at else start))
  }

  lemma {:induction false} OpsAreChronological(es: seq<Event>, start: int)
    requires InTime(es, start)
    ensures Chronological(Ops(es), start)
    decreases |es|
  {
    if |es| > 0 {
      var e, rest := es[0], Ops(es[1..]);
      OpsAreChronological(es[1..], if e.Attempt? then e.at else start);
      if e.Attempt? {
        assert Ops(es)[1..] == [Hit(GateKey(e.gate), e.at, e.reply)] + rest;
        assert Ops(es)[1..][1..] == rest;
        assert Chronological(Ops(es)[1..], e.at);
      } else {
        assert Ops(es)[1..] == rest;
      }
    }
  }

  /** Clearing an address's counter never touches a gate's. */
  lemma {:induction false} GateCountersAreNeverDropped(es: seq<Event>, gate: string)
    requires forall e :: e in es ==> GateId(e.gate)
    ensures Drop(GateKey(gate)) !in Ops(es)
    decreases |es|
  {
    if |es| > 0 {
      var e := es[0];
      assert e in es;
      CountersAreApart(e.gate, e.ip, gate);
      GateCountersAreNeverDropped(es[1..], gate);
      assert Drop(GateKey(gate)) !in OpsOf(e);
    }
  }

  lemma {:induction false} ComparedAreAdmitted(store: Store, es: seq<Event>, gate: string, maxIp: int, maxGate: int,
                                               from: int, until: int)
    requires forall e :: e in es ==> GateId(e.gate)
    ensures Compared(store, es, gate, maxIp, maxGate, from, until)
            <= AdmittedOn(store, Ops(es), GateKey(gate), maxGate, PIN_WINDOW, from, until)
    decreases |es|
  {
    if |es| > 0 {
      var e, rest := es[0], Ops(es[1..]);
      assert e in es;
      CountersAreApart(e.gate, e.ip, gate);
      ComparedAreAdmitted(StepStore(store, e), es[1..], gate, maxIp, maxGate, from, until);
      if e.Attempt? {
        assert Ops(es)[1..] == [Hit(GateKey(e.gate), e.at, e.reply)] + rest;
        assert Ops(es)[1..][1..] == rest;
      } else {
        assert Ops(es)[1..] == rest;
      }
    }
  }

  /** Whatever addresses are used and however often theirs are cleared, in any quarter of an hour
      at most twice the gate's limit of attempts have their PIN compared. */
  lemma GuessesAreBounded(es: seq<Event>, gate: string, maxIp: int, maxGate: int, start: int, from: int)
    requires InTime(es, start) && forall e :: e in es ==> GateId(e.gate)
    ensures Compared(map[], es, gate, maxIp, maxGate, from, from + PIN_WINDOW) <= 2 * AtLeast0(maxGate)
  {
    ComparedAreAdmitted(map[], es, gate, maxIp, maxGate, from, from + PIN_WINDOW);
    OpsAreChronological(es, start);
    GateCountersAreNeverDropped(es, gate);
    LimiterBound(map[], Ops(es), GateKey(gate), maxGate, PIN_WINDOW, start, from);
  }

  // ---------- which PIN matches ----------

  const DEFAULT_PAGE := 50
  const MAX_PAGE := 100

  function PageLimit(requested: int): (limit: nat)
    ensures 1 <= limit <= MAX_PAGE
  {
    if requested <= 0 then DEFAULT_PAGE else if requested > MAX_PAGE then MAX_PAGE else requested
  }

  /** The gate's PINs, newest first, cut to one page. */
  function Page(pins: seq<Pin>, requested: int): seq<Pin> {
    if |pins| <= PageLimit(requested) then pins else pins[..PageLimit(requested)]
  }

  function FirstMatch(pins: seq<Pin>, entered: string, verify: (string, string) -> bool): Option<Pin> {
    if |pins| == 0 then None
    else if verify(pins[0].hash, entered) then Some(pins[0])
    else FirstMatch(pins[1..], entered, verify)
  }

  lemma {:induction false} FirstMatchIsFirst(pins: seq<Pin>, entered: string, verify: (string, string) -> bool, i: nat)
    requires i < |pins| && verify(pins[i].hash, entered)
    requires forall j :: 0 <= j < i ==> !verify(pins[j].hash, entered)
    ensures FirstMatch(pins, entered, verify) == Some(pins[i])
    decreases i
  {
    if i > 0 {
      FirstMatchIsFirst(pins[1..], entered, verify, i - 1);
    }
  }

  lemma {:induction false} NoMatchIsNone(pins: seq<Pin>, entered: string, verify: (string, string) -> bool)
    requires forall j :: 0 <= j < |pins| ==> !verify(pins[j].hash, entered)
    ensures FirstMatch(pins, entered, verify) == None
    decreases |pins|
  {
    if |pins| > 0 {
      NoMatchIsNone(pins[1..], entered, verify);
    }
  }

  /** The first match of all is found if and only if it lies on the page: fifty PINs where no number is asked for,
      and never more than a hundred. */
  lemma PinIsSeenIffOnFirstPage(pins: seq<Pin>, entered: string, verify: (string, string) -> bool, requested: int,
                                i: nat)
    requires i < |pins| && verify(pins[i].hash, entered)
    requires forall j :: 0 <= j < i ==> !verify(pins[j].hash, entered)
    ensures
      var shown := if requested <= 0 then 50 else if requested > 100 then 100 else requested;
      FirstMatch(Page(pins, requested), entered, verify) == (if i < shown then Some(pins[i]) else None)
  {
    var page := Page(pins, requested);
    if i < PageLimit(requested) {
      FirstMatchIsFirst(page, entered, verify, i);
    } else {
      NoMatchIsNone(page, entered, verify);
    }
  }

  // ---------- uses ----------

  /** What happens to a PIN's use counter: the script with the limit its caller read, a script call whose
      reply was an error (the use is then allowed), and the counter's removal with its PIN. */
  datatype Use = Script(limit: int) | NoReply(applied: bool, limit: int) | Forgotten

  /** INCR, and DECR again with answer zero if that went over the limit. */
  function RunScript(count: int, limit: int): (int, int) {
    if count + 1 > limit then (count, 0) else (count + 1, count + 1)
  }

  function CountAfter(count: int, u: Use): int {
    match u
    case Script(limit) => RunScript(count, limit).0
    case NoReply(applied, limit) => if applied then RunScript(count, limit).0 else count
    case Forgotten => 0
  }

  function FinalCount(count: int, us: seq<Use>): int
    decreases |us|
  {
    if |us| == 0 then count else FinalCount(CountAfter(count, us[0]), us[1..])
  }

  /** The uses granted by the script, each with the count it was answered and the limit it was held to. */
  function Grants(count: int, us: seq<Use>): seq<(int, int)>
    decreases |us|
  {
    if |us| == 0 then [] else
      (if us[0].NoReply? || us[0].Forgotten? || RunScript(count, us[0].limit).1 == 0 then []
       else [(RunScript(count, us[0].limit).1, us[0].limit)])
      + Grants(CountAfter(count, us[0]), us[1..])
  }

  /** Only positive limits reach the script. */
  ghost predicate Limited(us: seq<Use>) {
    forall u :: u in us && !u.Forgotten? ==> u.limit > 0
  }

  /** In any order of Open calls, with the script answering, the counter is the number of uses granted,
      and the n-th grant is answered n, which is within the limit then in force. */
  lemma {:induction false} CounterIsGrants(count: nat, us: seq<Use>)
    requires Limited(us) && forall u :: u in us ==> u.Script?
    ensures FinalCount(count, us) == count + |Grants(count, us)|
    ensures forall i :: 0 <= i < |Grants(count, us)| ==>
      Grants(count, us)[i].0 == count + i + 1 && Grants(count, us)[i].0 <= Grants(count, us)[i].1
    decreases |us|
  {
    if |us| > 0 {
      assert us[0] in us;
      CounterIsGrants(CountAfter(count, us[0]), us[1..]);
    }
  }

  /** With a fixed limit the script grants exactly the first so many uses and refuses the rest. */
  lemma {:induction false} FixedLimitIsExact(count: nat, us: seq<Use>, limit: int)
    requires limit > 0 && count <= limit && forall u :: u in us ==> u == Script(limit)
    ensures |Grants(count, us)| == if |us| <= limit - count then |us| else limit - count
    decreases |us|
  {
    if |us| > 0 {
      assert us[0] in us && forall u :: u in us[1..] ==> u in us;
      FixedLimitIsExact(CountAfter(count, us[0]), us[1..], limit);
    }
  }

  /** With its PIN goes the counter: what follows is granted as if nothing had been. */
  lemma RemovalStartsAfresh(count: int, us: seq<Use>)
    ensures Grants(count, [Forgotten] + us) == Grants(0, us) && LetIn(count, [Forgotten] + us) == LetIn(0, us)
    ensures FinalCount(count, [Forgotten] + us) == FinalCount(0, us)
  {
    assert ([Forgotten] + us)[1..] == us;
  }

  /** The uses let in: those the script grants, and those whose script call fails. */
  function LetIn(count: int, us: seq<Use>): nat
    decreases |us|
  {
    if |us| == 0 then 0 else
      var granted := us[0].Script? && RunScript(count, us[0].limit).1 != 0;
      (if granted || us[0].NoReply? then 1 else 0) + LetIn(CountAfter(count, us[0]), us[1..])
  }

  function Unanswered(us: seq<Use>): (n: nat)
    ensures n <= |us|
  {
    if |us| == 0 then 0 else (if us[0].NoReply? then 1 else 0) + Unanswered(us[1..])
  }

  lemma {:induction false} LetInAreGrantsAndUnanswered(count: int, us: seq<Use>)
    requires Limited(us)
    ensures LetIn(count, us) == |Grants(count, us)| + Unanswered(us)
    decreases |us|
  {
    if |us| > 0 {
      assert us[0] in us && forall u :: u in us[1..] ==> u in us;
      LetInAreGrantsAndUnanswered(CountAfter(count, us[0]), us[1..]);
    }
  }

  lemma {:induction false} UnansweredAreCounted(us: seq<Use>, limit: int)
    requires forall u :: u in us && u.NoReply? ==> u.limit == limit
    ensures Unanswered(us) == multiset(us)[NoReply(true, limit)] + multiset(us)[NoReply(false, limit)]
    decreases |us|
  {
    if |us| > 0 {
      assert us[0] in us && us == [us[0]] + us[1..];
      UnansweredAreCounted(us[1..], limit);
    }
  }

  /** With a fixed limit, the uses let in are at most the limit for each life of the counter, and one more for each
      failed script call. */
  lemma UsesAreBounded(count: nat, us: seq<Use>, limit: int)
    requires limit > 0 && count <= limit && forall u :: u in us && !u.Forgotten? ==> u.limit == limit
    ensures LetIn(count, us) <= limit * (1 + multiset(us)[Forgotten]) - count
                               + multiset(us)[NoReply(true, limit)] + multiset(us)[NoReply(false, limit)]
  {
    LetInAreGrantsAndUnanswered(count, us);
    GrantsAreBounded(count, us, limit);
    UnansweredAreCounted(us, limit);
  }

  /** The bound is reached: each failed script call whose script did not run is one use more. */
  lemma {:induction false} FailedCallsAreUncounted(count: nat, us: seq<Use>, limit: int)
    requires limit > 0 && count <= limit
    requires forall u :: u in us ==> u == Script(limit) || u == NoReply(false, limit)
    ensures
      var tries := |us| - Unanswered(us);
      LetIn(count, us) == (if tries <= limit - count then tries else limit - count) + Unanswered(us)
    decreases |us|
  {
    if |us| > 0 {
      assert us[0] in us && forall u :: u in us[1..] ==> u in us;
      FailedCallsAreUncounted(CountAfter(count, us[0]), us[1..], limit);
    }
  }

  /** Lost replies and removals included: a fixed limit is granted at most once per life of the counter. */
  lemma {:induction false} GrantsAreBounded(count: nat, us: seq<Use>, limit: int)
    requires limit > 0 && count <= limit && forall u :: u in us && !u.Forgotten? ==> u.limit == limit
    ensures |Grants(count, us)| <= limit * (1 + multiset(us)[Forgotten]) - count
    decreases |us|
  {
    if |us| > 0 {
      assert us[0] in us && us == [us[0]] + us[1..];
      GrantsAreBounded(CountAfter(count, us[0]), us[1..], limit);
      if us[0].Forgotten? {
        var r := multiset(us[1..])[Forgotten];
        assert limit * (1 + (1 + r)) == limit * (1 + r) + limit;
      }
    }
  }

  // ---------- permissions ----------

  function WithoutManage(permissions: seq<string>): seq<string> {
    if |permissions| == 0 then []
    else (if permissions[0] != MANAGE then [permissions[0]] else []) + WithoutManage(permissions[1..])
  }

  lemma {:induction false} WithoutManageMeans(permissions: seq<string>, p: string)
    ensures p in WithoutManage(permissions) <==> p in permissions && p != MANAGE
    decreases |permissions|
  {
    if |permissions| > 0 {
      WithoutManageMeans(permissions[1..], p);
    }
  }

  lemma {:induction false} WithoutManageAppend(a: seq<string>, p: string)
    ensures WithoutManage(a + [p]) == WithoutManage(a) + (if p != MANAGE then [p] else [])
    decreases |a|
  {
    if |a| > 0 {
      assert (a + [p])[1..] == a[1..] + [p];
      WithoutManageAppend(a[1..], p);
    } else {
      assert (a + [p])[1..] == [];
    }
  }

  /** What a PIN session may do: the PIN's permissions, opening if it lists none, never management. */
  function Granted(permissions: seq<string>): seq<string> {
    WithoutManage(if |permissions| == 0 then ["gate:trigger_open"] else permissions)
  }

  lemma PinSessionsNeverManage(pin: string, gate: string, permissions: seq<string>)
    ensures NeverManages(PinSession(pin, gate, Granted(permissions)))
  {
    WithoutManageMeans(if |permissions| == 0 then ["gate:trigger_open"] else permissions, MANAGE);
  }

  /** A session as Open starts it from some PIN's permissions. */
  ghost predicate AsOpened(s: Session) {
    s.PinSession? ==> exists permissions :: s.permissions == Granted(permissions)
  }

  /** Over every run in which PIN sessions are started by Open, no token, first or refreshed, ever stands for a
      session that may manage its gate. */
  lemma NoPinTokenEverManages(uuid: Uuid, es: seq<RefreshTokens.Event>, token: string)
    requires RefreshTokens.Run(uuid, RefreshTokens.Init(), es)
    requires token in RefreshTokens.Exec(uuid, RefreshTokens.Init(), es).live
    requires forall e :: e in es && e.Start? ==> AsOpened(e.session)
    ensures
      var decoded := Decode(uuid, RefreshTokens.Exec(uuid, RefreshTokens.Init(), es).live[token].slot.payload);
      decoded.Some? && (decoded.value.0.PinSession? ==> MANAGE !in decoded.value.0.permissions)
  {
    forall e | e in es && e.Start?
      ensures NeverManages(e.session)
    {
      if e.session.PinSession? {
        var permissions :| e.session.permissions == Granted(permissions);
        PinSessionsNeverManage(e.session.pin, e.session.gate, permissions);
      }
    }
    RefreshNeverAddsManagement(uuid, es, token);
  }

  function SessionDuration(meta: PinMeta): int {
    if meta.sessionSeconds.Some? then Wrap64(meta.sessionSeconds.value * NANOS) else DEFAULT_SESSION
  }

  /** A session that a PIN opens can be refreshed for the seconds the PIN says, for ever if it says zero, and for a
      week if it says nothing. */
  lemma OpenedSessionsLast(s: Session, meta: PinMeta, live: map<string, Slot>, token: string, now: int, at: int)
    ensures
      var lasts := Redeemable(Put(live, token, NewSlot(s, "", SessionDuration(meta), now), true), token, at);
      match meta.sessionSeconds
      case None => lasts <==> at < now + 604_800_000_000_000
      case Some(seconds) =>
        && (seconds == 0 ==> lasts)
        && (0 < seconds <= 9_223_372_036 ==> (lasts <==> at < now + seconds * 1_000_000_000))
  {
    TokensLastTheirDuration(live, token, s, "", SessionDuration(meta), now, at);
  }

  // ---------- the service ----------

  /** Answers from the environment of one call. */
  datatype Env = Env(now: int, reply: Reply, pins: Option<seq<Pin>>, verify: (string, string) -> bool,
                     denies: Pin -> bool, clearOk: bool, script: Option<bool>,
                     token: string, signOk: bool, replyOk: bool, stored: bool)

  /** What comes of an attempt that may have its PIN compared. An unreadable schedule does not deny. */
  function Judge(env: Env, entered: string): Result<Pin, PinError> {
    if env.pins.None? then Err(ListFailed) else
      match FirstMatch(Page(env.pins.value, 10000), entered, env.verify)
      case None => Err(InvalidPin)
      case Some(pin) =>
        if pin.meta.expiresAt.Some? && env.now > pin.meta.expiresAt.value then Err(ScheduleDenied)
        else if env.denies(pin) then Err(ScheduleDenied)
        else Ok(pin)
  }

  /** The first PIN of the gate whose hash fits, among the first hundred. */
  ghost predicate IsMatch(env: Env, entered: string, i: int) {
    && env.pins.Some? && 0 <= i < |env.pins.value| && i < 100
    && env.verify(env.pins.value[i].hash, entered)
    && forall j :: 0 <= j < i ==> !env.verify(env.pins.value[j].hash, entered)
  }

  /** An instant later than the PIN's expiry, if it has one. */
  predicate HasExpired(pin: Pin, now: int) {
    match pin.meta.expiresAt case None => false case Some(at) => at < now
  }

  ghost predicate IsBarred(env: Env, entered: string, i: int) {
    IsMatch(env, entered, i) && (HasExpired(env.pins.value[i], env.now) || env.denies(env.pins.value[i]))
  }

  ghost predicate IsWelcome(env: Env, entered: string, i: int) {
    IsMatch(env, entered, i) && !HasExpired(env.pins.value[i], env.now) && !env.denies(env.pins.value[i])
  }

  /** An attempt whose PIN is compared succeeds exactly with the first match, not expired and not denied. */
  lemma JudgementMeans(env: Env, entered: string)
    ensures Judge(env, entered) == Err(ListFailed) <==> env.pins.None?
    ensures Judge(env, entered) == Err(InvalidPin) <==> env.pins.Some? && forall i :: !IsMatch(env, entered, i)
    ensures Judge(env, entered) == Err(ScheduleDenied) <==> exists i :: IsBarred(env, entered, i)
    ensures forall pin ::
      Judge(env, entered) == Ok(pin) <==> exists i :: IsWelcome(env, entered, i) && pin == env.pins.value[i]
  {
    if env.pins.Some? {
      var page := Page(env.pins.value, 10000);
      if i :| 0 <= i < |page| && env.verify(page[i].hash, entered) {
        var first := FirstFitting(page, entered, env.verify, i);
        FirstMatchIsFirst(page, entered, env.verify, first);
        assert IsMatch(env, entered, first);
        assert forall j :: IsMatch(env, entered, j) ==> j == first;
        assert IsBarred(env, entered, first) || IsWelcome(env, entered, first);
      } else {
        NoMatchIsNone(page, entered, env.verify);
      }
    }
  }

  lemma {:induction false} FirstFitting(pins: seq<Pin>, entered: string, verify: (string, string) -> bool, i: nat)
    returns (first: nat)
    requires i < |pins| && verify(pins[i].hash, entered)
    ensures first <= i && verify(pins[first].hash, entered)
      && forall j :: 0 <= j < first ==> !verify(pins[j].hash, entered)
    decreases i
  {
    first := i;
    if j :| 0 <= j < i && verify(pins[j].hash, entered) {
      first := FirstFitting(pins, entered, verify, j);
    }
  }

  /** The counters after an attempt: both are counted, and a success clears the address's. */
  function AfterAttempt(store: Store, gate: string, ip: string, env: Env, entered: string, maxIp: int,
                        maxGate: int): Store {
    var counted := AttemptStore(store, gate, ip, env.now, env.reply);
    if Reaches(store, gate, ip, env.now, env.reply, maxIp, maxGate) && Judge(env, entered).Ok? && env.clearOk
    then counted - {IpKey(gate, ip)} else counted
  }

  class GatePinService {
    var store: Store
    var uses: map<string, int>
    const auth: AuthService
    const maxAttempts: int
    const maxGateAttempts: int

    /** Non-positive limits fall back to 5 per address and 50 per gate. */
    constructor (auth: AuthService, maxAttempts: int, maxGateAttempts: int)
      ensures this.auth == auth && store == map[] && uses == map[]
      ensures this.maxAttempts == (if maxAttempts <= 0 then 5 else maxAttempts) > 0
      ensures this.maxGateAttempts == (if maxGateAttempts <= 0 then 50 else maxGateAttempts) > 0
    {
      this.auth, this.store, this.uses := auth, map[], map[];
      this.maxAttempts := if maxAttempts <= 0 then 5 else maxAttempts;
      this.maxGateAttempts := if maxGateAttempts <= 0 then 50 else maxGateAttempts;
    }

    function CountOf(pin: string): int
      reads this
    {
      if pin in uses then uses[pin] else 0
    }

    method ValidatePin(gate: string, entered: string, ip: string, env: Env) returns (r: Result<Pin, PinError>)
      modifies this`store
      ensures store == AfterAttempt(old(store), gate, ip, env, entered, maxAttempts, maxGateAttempts)
      ensures r == if Reaches(old(store), gate, ip, env.now, env.reply, maxAttempts, maxGateAttempts)
                   then Judge(env, entered) else Err(TooManyAttempts)
      ensures
        var ipCount := Counted(CounterOf(old(store), IpKey(gate, ip)), env.now, PIN_WINDOW);
        var gateCount := Counted(CounterOf(old(store), GateKey(gate)), env.now, PIN_WINDOW);
        GateId(gate) ==>
          && (r == Err(TooManyAttempts)
              <==> env.reply.Lost? || ipCount.count > maxAttempts || gateCount.count > maxGateAttempts)
          && CounterOf(store, GateKey(gate))
             == (if env.reply == Lost(false) then CounterOf(old(store), GateKey(gate)) else Some(gateCount))
          && CounterOf(store, IpKey(gate, ip))
             == (if r.Ok? && env.clearOk then None
                 else if env.reply == Lost(false) then CounterOf(old(store), IpKey(gate, ip))
                 else Some(ipCount))
          && (forall key :: key != IpKey(gate, ip) && key != GateKey(gate) ==>
                CounterOf(store, key) == CounterOf(old(store), key))
      ensures r == Err(ListFailed) <==> r != Err(TooManyAttempts) && env.pins.None?
      ensures r == Err(InvalidPin)
        <==> r != Err(TooManyAttempts) && env.pins.Some? && forall i :: !IsMatch(env, entered, i)
      ensures r == Err(ScheduleDenied) <==> r != Err(TooManyAttempts) && exists i :: IsBarred(env, entered, i)
      ensures r != Err(TooManyAttempts) ==> forall pin ::
        r == Ok(pin) <==> exists i :: IsWelcome(env, entered, i) && pin == env.pins.value[i]
    {
      JudgementMeans(env, entered);
      if GateId(gate) {
        CountersAreApart(gate, ip, gate);
      }
      var ipHit, gateHit := Hit(IpKey(gate, ip), env.now, env.reply), Hit(GateKey(gate), env.now, env.reply);
      var ipAdmitted := HitAdmitted(store, ipHit, maxAttempts, PIN_WINDOW);
      store := Apply(store, ipHit, PIN_WINDOW);
      var gateAdmitted := HitAdmitted(store, gateHit, maxGateAttempts, PIN_WINDOW);
      store := Apply(store, gateHit, PIN_WINDOW);
      if env.reply.Lost? || !ipAdmitted || !gateAdmitted {
        return Err(TooManyAttempts);
      }
      if env.pins.None? {
        return Err(ListFailed);
      }
      var pins := Page(env.pins.value, 10000);
      var matched: Option<Pin> := None;
      var i := 0;
      while i < |pins|
        invariant 0 <= i <= |pins| && matched.None?
        invariant FirstMatch(pins, entered, env.verify) == FirstMatch(pins[i..], entered, env.verify)
      {
        assert pins[i..][0] == pins[i] && pins[i..][1..] == pins[i + 1..];
        if env.verify(pins[i].hash, entered) {
          matched := Some(pins[i]);
          break;
        }
        i := i + 1;
      }
      if matched.None? {
        return Err(InvalidPin);
      }
      if matched.value.meta.expiresAt.Some? && env.now > matched.value.meta.expiresAt.value {
        return Err(ScheduleDenied);
      }
      if env.denies(matched.value) {
        return Err(ScheduleDenied);
      }
      if env.clearOk {
        store := store - {IpKey(gate, ip)};
      }
      return Ok(matched.value);
    }

    /** The atomic script: count the use, and take it back if it is one too many. */
    method UseScript(pin: string, limit: int) returns (answer: int)
      modifies this`uses
      ensures answer == RunScript(old(CountOf(pin)), limit).1
      ensures uses == old(uses)[pin := RunScript(old(CountOf(pin)), limit).0]
      ensures
        var before := old(CountOf(pin));
        if before < limit then answer == CountOf(pin) == before + 1 else answer == 0 && CountOf(pin) == before
    {
      var count := CountOf(pin) + 1;
      uses := uses[pin := count];
      if count > limit {
        uses := uses[pin := count - 1];
        return 0;
      }
      return count;
    }

    method FilterPermissions(permissions: seq<string>) returns (filtered: seq<string>)
      ensures filtered == Granted(permissions)
      ensures forall p ::
        p in filtered <==> p != "gate:manage" && p in (if permissions == [] then ["gate:trigger_open"] else permissions)
    {
      var perms := if |permissions| == 0 then ["gate:trigger_open"] else permissions;
      filtered := [];
      for i := 0 to |perms|
        invariant filtered == WithoutManage(perms[..i])
      {
        assert perms[..i + 1] == perms[..i] + [perms[i]];
        WithoutManageAppend(perms[..i], perms[i]);
        if perms[i] != MANAGE {
          filtered := filtered + [perms[i]];
        }
      }
      assert perms[..|perms|] == perms;
      forall p
        ensures p in filtered <==> p in perms && p != MANAGE
      {
        WithoutManageMeans(perms, p);
      }
    }

    /** Validate, take a use if uses are limited, and start a session that can never manage the gate.
        env.script: the script answered (Some(true)), failed after running (Some(false)), or did not run (None). */
    method Open(gate: string, entered: string, ip: string, env: Env)
      returns (r: Result<(string, seq<string>), PinError>)
      requires env.replyOk ==> env.stored
      modifies this`store, this`uses, auth
      ensures store == AfterAttempt(old(store), gate, ip, env, entered, maxAttempts, maxGateAttempts)
      ensures !Reaches(old(store), gate, ip, env.now, env.reply, maxAttempts, maxGateAttempts)
              ==> r == Err(TooManyAttempts) && uses == old(uses) && auth.live == old(auth.live)
      ensures Reaches(old(store), gate, ip, env.now, env.reply, maxAttempts, maxGateAttempts) ==>
        match Judge(env, entered)
        case Err(error) => r == Err(error) && uses == old(uses) && auth.live == old(auth.live)
        case Ok(pin) =>
          var limited := pin.meta.maxUses.Some? && pin.meta.maxUses.value > 0;
          var (count, answer) := if limited then RunScript(old(CountOf(pin.id)), pin.meta.maxUses.value) else (0, 1);
          && uses == (if limited && env.script.Some? then old(uses)[pin.id := count] else old(uses))
          && (env.script == Some(true) && answer == 0 ==> r == Err(MaxUsesExceeded) && auth.live == old(auth.live))
          && (!(env.script == Some(true) && answer == 0) ==>
                var session := PinSession(pin.id, gate, Granted(pin.meta.permissions));
                var slot := NewSlot(session, "", SessionDuration(pin.meta), env.now);
                && auth.live == Put(old(auth.live), env.token, slot, env.signOk && env.stored)
                && (r.Ok? <==> env.signOk && env.replyOk)
                && (r.Ok? ==> r.value == (env.token, session.permissions)))
    {
      var validated := ValidatePin(gate, entered, ip, env);
      if validated.Err? {
        return Err(validated.error);
      }
      var pin := validated.value;
      if pin.meta.maxUses.Some? && pin.meta.maxUses.value > 0 && env.script.Some? {
        var answer := UseScript(pin.id, pin.meta.maxUses.value);
        if env.script.value && answer == 0 {
          return Err(MaxUsesExceeded);
        }
      }
      var filtered := FilterPermissions(pin.meta.permissions);
      var issued := auth.Issue(PinSession(pin.id, gate, filtered), "", SessionDuration(pin.meta), env.token, env.now,
                               env.signOk, env.replyOk, env.stored);
      if issued.Err? {
        return Err(SessionFailed(issued.error));
      }
      return Ok((env.token, filtered));
    }

    /** One-shot entry: validates like Open but never touches the use counter. */
    method Unlock(gate: string, entered: string, ip: string, env: Env) returns (r: Result<(), PinError>)
      modifies this`store
      ensures store == AfterAttempt(old(store), gate, ip, env, entered, maxAttempts, maxGateAttempts)
      ensures var reaches := Reaches(old(store), gate, ip, env.now, env.reply, maxAttempts, maxGateAttempts);
              && (r.Ok? <==> reaches && Judge(env, entered).Ok?)
              && (r.Err? ==> r.error == if reaches then Judge(env, entered).error else TooManyAttempts)
      ensures uses == old(uses)
    {
      var validated := ValidatePin(gate, entered, ip, env);
      if validated.Err? {
        return Err(validated.error);
      }
      return Ok(());
    }

    /** The counter goes with the row, unless its deletion fails unnoticed; the other counters stay. */
    method Delete(pin: string, rowDeleted: bool, counterDeleted: bool)
      modifies this`uses
      ensures CountOf(pin) == if rowDeleted && counterDeleted then 0 else old(CountOf(pin))
      ensures forall p :: p != pin ==> CountOf(p) == old(CountOf(p))
    {
      if !rowDeleted {
        return;
      }
      if counterDeleted {
        uses := uses - {pin};
      }
    }
  }

  /** A session triggers an action exactly when it carries that action's permission. */
  method TriggerWithSession(session: Option<Session>, action: string) returns (r: Result<(), PinError>)
    ensures r.Ok? <==>
      && session.Some? && session.value.PinSession?
      && (if action == "close" then "gate:trigger_close" else "gate:trigger_open") in session.value.permissions
    ensures r == Err(InvalidSession) <==> !(session.Some? && session.value.PinSession?)
  {
    if session.None? || !session.value.PinSession? {
      return Err(InvalidSession);
    }
    var required := "gate:trigger_open";
    if action == "close" {
      required := "gate:trigger_close";
    }
    var permissions := session.value.permissions;
    var hasPermission := false;
    for i := 0 to |permissions|
      invariant !hasPermission && required !in permissions[..i]
    {
      if permissions[i] == required {
        hasPermission := true;
        break;
      }
    }
    if !hasPermission {
      assert permissions[..|permissions|] == permissions;
      return Err(MissingPermission);
    }
    return Ok(());
  }
}
