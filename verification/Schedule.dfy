/** Access schedules: leaf rules over the local clock, the tree evaluator, and what a well-formed tree means. */
module Schedule {
  import opened Prelude
  import opened Decimal

  /** Type is time_range, weekdays_range, date_range, day_of_month_range or month_range; each uses its own fields. */
  datatype Rule = Rule(
    ruleType: string,
    days: seq<int>, startTime: string, endTime: string,
    startDay: Option<int>, endDay: Option<int>,
    startDate: string, endDate: string,
    startDOM: Option<int>, endDOM: Option<int>,
    startMonth: Option<int>, endMonth: Option<int>)

  datatype Expr = Expr(op: string, children: seq<Expr>, rule: Option<Rule>)

  /** A reading of the local clock: minutes since 00:00 on Thursday 1 January 1970, and the calendar date. */
  datatype Now = Now(minute: int, year: int, month: int, day: int)

  const DAY := 1440

  predicate IsDate(year: int, month: int, day: int) {
    0 <= year <= 9999 && 1 <= month <= 12 && 1 <= day <= 31
  }

  function MinuteOfDay(now: Now): (m: nat)
    ensures m < DAY
  {
    now.minute % DAY
  }

  /** 0 is Sunday. */
  function Weekday(now: Now): (d: nat)
    ensures d < 7
  {
    (now.minute / DAY + 4) % 7
  }

  /** The clock reads hours and minutes of its day, and its days are Thursday, Friday and so on from the first. */
  lemma ClockReads(now: Now, next: Now, days: int, hour: int, minute: int)
    requires 0 <= hour < 24 && 0 <= minute < 60 && now.minute == days * DAY + hour * 60 + minute
    requires next.minute == now.minute + DAY
    ensures MinuteOfDay(now) == MinuteOfDay(next) == hour * 60 + minute
    ensures days == 0 ==> Weekday(now) == 4
    ensures Weekday(next) == if Weekday(now) == 6 then 0 else Weekday(now) + 1
  {
    assert now.minute / DAY == days && next.minute / DAY == days + 1;
  }

  // ---------- times of day ----------

  /** Decimal text with an optional sign. */
  function Atoi(s: string): Option<int> {
    var signed := |s| > 0 && (s[0] == '+' || s[0] == '-');
    var body := if signed then s[1..] else s;
    if |body| == 0 || !AllDigits(body) then None
    else
      var n: int := Number(body);
      Some(if signed && s[0] == '-' then -n else n)
  }

  /** Hour and minute as minutes since midnight. */
  function ParseHHMM(s: string): (r: Option<nat>)
    ensures r.Some? ==> r.value < DAY
  {
    var i := IndexOf(s, ':');
    if i == |s| then None else
      var h, m := Atoi(s[..i]), Atoi(s[i + 1..]);
      if h.None? || m.None? || h.value < 0 || h.value > 23 || m.value < 0 || m.value > 59 then None
      else Some(h.value * 60 + m.value)
  }

  function TimeText(minute: nat): string {
    Pad(minute / 60, 2) + ":" + Pad(minute % 60, 2)
  }

  lemma PadIsAtoi(n: nat, width: nat)
    requires n < Pow10(width) && width > 0
    ensures Atoi(Pad(n, width)) == Some(n)
  {
    PadReadsBack(n, width);
    assert Pad(n, width)[0] in Pad(n, width);
  }

  lemma ClockTextReadsBack(head: string, tail: string, h: nat, m: nat)
    requires AllDigits(head) && Atoi(head) == Some(h) && Atoi(tail) == Some(m) && h < 24 && m < 60
    ensures ParseHHMM(head + ":" + tail) == Some(h * 60 + m)
  {
    FirstIsBetween(':', head, tail);
    var s := head + ":" + tail;
    assert s[..|head|] == head && s[|head| + 1..] == tail;
  }

  lemma TwoDigitField(n: nat)
    requires n < 100
    ensures AllDigits(Pad(n, 2)) && Atoi(Pad(n, 2)) == Some(n)
  {
    PowersOfTen();
    PadReadsBack(n, 2);
    PadIsAtoi(n, 2);
  }

  /** Reading a printed time of day gives it back. */
  lemma {:induction false} TimesReadBack(minute: nat)
    requires minute < DAY
    ensures ParseHHMM(TimeText(minute)) == Some(minute)
  {
    TwoDigitField(minute / 60);
    TwoDigitField(minute % 60);
    ClockTextReadsBack(Pad(minute / 60, 2), Pad(minute % 60, 2), minute / 60, minute % 60);
  }

  /** Two digits, a colon, two digits. */
  predicate IsClockText(s: string) {
    |s| == 5 && s[2] == ':' && IsDigit(s[0]) && IsDigit(s[1]) && IsDigit(s[3]) && IsDigit(s[4])
  }

  lemma {:induction false} TwoDigits(s: string)
    requires |s| == 2 && IsDigit(s[0]) && IsDigit(s[1])
    ensures AllDigits(s) && Number(s) == Value(s[0]) * 10 + Value(s[1])
    ensures Pad(Number(s), 2) == s && Atoi(s) == Some(Number(s))
  {
    assert s[..1] == [s[0]];
    assert Number(s[..1]) == Value(s[0]);
    var n := Number(s);
    assert n / 10 == Value(s[0]) && n % 10 == Value(s[1]);
    assert Digit(Value(s[0])) == s[0] && Digit(Value(s[1])) == s[1];
    assert Pad(n / 10, 1) == Pad(n / 100, 0) + [Digit(n / 10 % 10)] == [s[0]];
  }

  lemma PrintedTimesAreClockText(t: nat)
    requires t < DAY
    ensures IsClockText(TimeText(t))
  {
    PowersOfTen();
    PadReadsBack(t / 60, 2);
    PadReadsBack(t % 60, 2);
    var h, m := Pad(t / 60, 2), Pad(t % 60, 2);
    assert h[0] in h && h[1] in h && m[0] in m && m[1] in m;
  }

  /** Of the texts that are read as a time, exactly those written HH:MM print back as they were; others exist. */
  lemma AcceptedTimesPrintBack(s: string)
    requires ParseHHMM(s).Some?
    ensures TimeText(ParseHHMM(s).value) == s <==> IsClockText(s)
  {
    var t := ParseHHMM(s).value;
    if IsClockText(s) {
      FirstIsBetween(':', s[..2], s[3..]);
      assert s == s[..2] + ":" + s[3..];
      TwoDigits(s[..2]);
      TwoDigits(s[3..]);
      assert t / 60 == Number(s[..2]) && t % 60 == Number(s[3..]);
    }
    PrintedTimesAreClockText(t);
  }

  lemma SignsAndShortTimesAreAccepted()
    ensures ParseHHMM("+9:-0") == Some(540)
  {
    assert Number("9") == 9 && Number("0") == 0 by {
      assert "9"[..0] == "" && "0"[..0] == "";
    }
    assert "+9"[1..] == "9" && "-0"[1..] == "0";
    FirstIsBetween(':', "+9", "-0");
    assert "+9:-0" == "+9" + ":" + "-0" && "+9:-0"[..2] == "+9" && "+9:-0"[3..] == "-0";
  }

  // ---------- leaf rules, as evaluated ----------

  predicate InTimes(start: int, end: int, x: int) {
    if start <= end then x >= start && x < end else x >= start || x < end
  }

  predicate InClosed(start: int, end: int, x: int) {
    if start <= end then x >= start && x <= end else x >= start || x <= end
  }

  predicate TimeRangeMatches(r: Rule, now: Now) {
    if |r.days| > 0 && Weekday(now) !in r.days then false
    else if r.startTime == "" || r.endTime == "" then true
    else
      var start, end := ParseHHMM(r.startTime), ParseHHMM(r.endTime);
      if start.None? || end.None? then false
      else InTimes(start.value, end.value, MinuteOfDay(now))
  }

  /** The loop over the listed days, and the two branches of the range. */
  method MatchesTimeRange(r: Rule, now: Now) returns (matches: bool)
    ensures matches == TimeRangeMatches(r, now)
  {
    if |r.days| > 0 {
      var inDays, i := false, 0;
      while i < |r.days| && !inDays
        invariant i <= |r.days| && (inDays <==> Weekday(now) in r.days[..i])
      {
        if r.days[i] == Weekday(now) {
          inDays := true;
        }
        assert r.days[..i + 1] == r.days[..i] + [r.days[i]];
        i := i + 1;
      }
      assert i == |r.days| ==> r.days[..i] == r.days;
      if !inDays {
        return false;
      }
    }
    if r.startTime == "" || r.endTime == "" {
      return true;
    }
    var start, end := ParseHHMM(r.startTime), ParseHHMM(r.endTime);
    if start.None? || end.None? {
      return false;
    }
    var x := MinuteOfDay(now);
    if start.value <= end.value {
      return x >= start.value && x < end.value;
    }
    return x >= start.value || x < end.value;
  }

  predicate BothIn(start: Option<int>, end: Option<int>, x: int) {
    start.Some? && end.Some? && InClosed(start.value, end.value, x)
  }

  /** At least four digits, and a sign before year 0. */
  function YearText(year: int): string {
    var n: nat := if year < 0 then -year else year;
    (if year < 0 then "-" else "") + if n < 10000 then Pad(n, 4) else Numeral(n)
  }

  /** The date as the clock formats it: year, month and day, zero-padded. */
  function DateText(year: int, month: int, day: int): string
    requires 1 <= month <= 12 && 1 <= day <= 31
  {
    YearText(year) + "-" + Pad(month, 2) + "-" + Pad(day, 2)
  }

  predicate DateRangeMatches(r: Rule, now: Now)
    requires 1 <= now.month <= 12 && 1 <= now.day <= 31
  {
    var today := DateText(now.year, now.month, now.day);
    r.startDate != "" && r.endDate != "" && TextLe(r.startDate, today) && TextLe(today, r.endDate)
  }

  predicate RuleMatches(r: Rule, now: Now)
    requires OnCalendar(now)
  {
    match r.ruleType
    case "time_range" => TimeRangeMatches(r, now)
    case "weekdays_range" => BothIn(r.startDay, r.endDay, Weekday(now))
    case "date_range" => DateRangeMatches(r, now)
    case "day_of_month_range" => BothIn(r.startDOM, r.endDOM, now.day)
    case "month_range" => BothIn(r.startMonth, r.endMonth, now.month)
    case _ => false
  }

  predicate OnCalendar(now: Now) {
    1 <= now.month <= 12 && 1 <= now.day <= 31
  }

  // ---------- leaf rules, as meant ----------

  /** x lies in the half-open arc from a to b on a circle of n points; from a to a is empty. */
  predicate OnOpenArc(a: int, b: int, n: int, x: int)
    requires n > 0
  {
    (x - a) % n < (b - a) % n
  }

  /** x lies in the closed arc from a to b on a circle of n points. */
  predicate OnClosedArc(a: int, b: int, n: int, x: int)
    requires n > 0
  {
    (x - a) % n <= (b - a) % n
  }

  /** The circles of the clock and the calendar: minutes, weekdays, months, days of the month. */
  predicate IsCircle(n: int) {
    n == DAY || n == 7 || n == 12 || n == 31
  }

  lemma DifferenceOnCircle(a: int, b: int, n: int)
    requires IsCircle(n) && 0 <= a < n && 0 <= b < n
    ensures (b - a) % n == if a <= b then b - a else b - a + n
  {
    if n == 7 {
      assert (b - a) % 7 == if a <= b then b - a else b - a + 7;
    } else if n == 12 {
      assert (b - a) % 12 == if a <= b then b - a else b - a + 12;
    } else if n == 31 {
      assert (b - a) % 31 == if a <= b then b - a else b - a + 31;
    } else {
      assert (b - a) % 1440 == if a <= b then b - a else b - a + 1440;
    }
  }

  lemma TimesAreOpenArcs(start: int, end: int, x: int)
    requires 0 <= start < DAY && 0 <= end < DAY && 0 <= x < DAY
    ensures InTimes(start, end, x) <==> OnOpenArc(start, end, DAY, x)
  {
    DifferenceOnCircle(start, end, DAY);
    DifferenceOnCircle(start, x, DAY);
  }

  /** With the circle starting at first (0 for weekdays, 1 for days of the month and months). */
  lemma RangesAreClosedArcs(start: int, end: int, first: int, n: int, x: int)
    requires IsCircle(n) && first <= start < first + n && first <= end < first + n && first <= x < first + n
    ensures InClosed(start, end, x) <==> OnClosedArc(start, end, n, x)
  {
    DifferenceOnCircle(start - first, end - first, n);
    DifferenceOnCircle(start - first, x - first, n);
    assert end - start == (end - first) - (start - first) && x - start == (x - first) - (start - first);
  }

  /** Calendar order of two dates. */
  predicate DateLe(y: int, m: int, d: int, y': int, m': int, d': int) {
    y < y' || (y == y' && (m < m' || (m == m' && d <= d')))
  }

  /** Three numbers in date form. */
  function Dashed(y: nat, m: nat, d: nat): string {
    Pad(y, 4) + ("-" + (Pad(m, 2) + ("-" + Pad(d, 2))))
  }

  /** Zero-padded dates compare as text the way they compare as dates (full-date, section 5.6 of RFC 3339). */
  lemma DashedCompareAsDates(y: nat, m: nat, d: nat, y': nat, m': nat, d': nat)
    requires y < 10000 && m < 100 && d < 100 && y' < 10000 && m' < 100 && d' < 100
    ensures TextLe(Dashed(y, m, d), Dashed(y', m', d')) <==> DateLe(y, m, d, y', m', d')
  {
    PowersOfTen();
    var dd, dd' := Pad(d, 2), Pad(d', 2);
    var md, md' := Pad(m, 2) + ("-" + dd), Pad(m', 2) + ("-" + dd');
    PaddedCompareAsNumbers(y, y', 4);
    PaddedCompareAsNumbers(m, m', 2);
    PaddedCompareAsNumbers(d, d', 2);
    HeadsCompareFirst(Pad(y, 4), Pad(y', 4), "-" + md, "-" + md');
    HeadsCompareFirst("-", "-", md, md');
    HeadsCompareFirst(Pad(m, 2), Pad(m', 2), "-" + dd, "-" + dd');
    HeadsCompareFirst("-", "-", dd, dd');
  }

  /** So do the dates the clock formats. */
  lemma DateTextsCompareAsDates(y: int, m: int, d: int, y': int, m': int, d': int)
    requires IsDate(y, m, d) && IsDate(y', m', d')
    ensures TextLe(DateText(y, m, d), DateText(y', m', d')) <==> DateLe(y, m, d, y', m', d')
  {
    assert DateText(y, m, d) == Dashed(y, m, d) && DateText(y', m', d') == Dashed(y', m', d');
    DashedCompareAsDates(y, m, d, y', m', d');
  }

  datatype Date = Date(year: nat, month: nat, day: nat)

  /** The date a text of the form YYYY-MM-DD stands for. */
  function ReadDate(s: string): Option<Date> {
    if |s| == 10 && s[4] == '-' && s[7] == '-' && AllDigits(s[..4]) && AllDigits(s[5..7]) && AllDigits(s[8..])
    then Some(Date(Decimal.Number(s[..4]), Decimal.Number(s[5..7]), Decimal.Number(s[8..])))
    else None
  }

  lemma DateReadsBack(s: string)
    requires ReadDate(s).Some?
    ensures
      var date := ReadDate(s).value;
      date.year < 10000 && date.month < 100 && date.day < 100 && Dashed(date.year, date.month, date.day) == s
  {
    PowersOfTen();
    DigitsArePadded(s[..4]);
    DigitsArePadded(s[5..7]);
    DigitsArePadded(s[8..]);
    assert s == s[..4] + ("-" + (s[5..7] + ("-" + s[8..])));
  }

  /** Every date as the clock formats it is read as that date. */
  lemma FormattedDatesAreRead(y: nat, m: nat, d: nat)
    requires IsDate(y, m, d)
    ensures ReadDate(DateText(y, m, d)) == Some(Date(y, m, d))
  {
    PowersOfTen();
    PadReadsBack(y, 4);
    PadReadsBack(m, 2);
    PadReadsBack(d, 2);
    var s := DateText(y, m, d);
    assert s == Dashed(y, m, d) == Pad(y, 4) + ("-" + (Pad(m, 2) + ("-" + Pad(d, 2))));
    assert s[..4] == Pad(y, 4) && s[5..7] == Pad(m, 2) && s[8..] == Pad(d, 2);
  }

  /** The day has come: for a text that is a date by the calendar, for any other in the order of texts. */
  predicate HasCome(s: string, now: Now)
    requires OnCalendar(now)
  {
    var date := ReadDate(s);
    if date.Some? && 0 <= now.year <= 9999
    then DateLe(date.value.year, date.value.month, date.value.day, now.year, now.month, now.day)
    else TextLe(s, DateText(now.year, now.month, now.day))
  }

  /** The day has not passed yet. */
  predicate HasNotPassed(s: string, now: Now)
    requires OnCalendar(now)
  {
    var date := ReadDate(s);
    if date.Some? && 0 <= now.year <= 9999
    then DateLe(now.year, now.month, now.day, date.value.year, date.value.month, date.value.day)
    else TextLe(DateText(now.year, now.month, now.day), s)
  }

  lemma DatesAreComparedByTheCalendar(s: string, now: Now)
    requires OnCalendar(now)
    ensures HasCome(s, now) <==> TextLe(s, DateText(now.year, now.month, now.day))
    ensures HasNotPassed(s, now) <==> TextLe(DateText(now.year, now.month, now.day), s)
  {
    var date := ReadDate(s);
    if date.Some? && 0 <= now.year <= 9999 {
      DateReadsBack(s);
      assert DateText(now.year, now.month, now.day) == Dashed(now.year, now.month, now.day);
      DashedCompareAsDates(date.value.year, date.value.month, date.value.day, now.year, now.month, now.day);
      DashedCompareAsDates(now.year, now.month, now.day, date.value.year, date.value.month, date.value.day);
    }
  }

  lemma PowersOfTen()
    ensures Pow10(2) == 100 && Pow10(4) == 10000
  {
    assert Pow10(1) == 10 && Pow10(2) == 100 && Pow10(3) == 1000;
  }

  /** A date range over two dates holds exactly from the first to the last, both included. */
  lemma DateRangesMeanDates(r: Rule, now: Now, y: int, m: int, d: int, y': int, m': int, d': int)
    requires IsDate(y, m, d) && IsDate(y', m', d') && IsDate(now.year, now.month, now.day)
    requires r.ruleType == "date_range" && r.startDate == DateText(y, m, d) && r.endDate == DateText(y', m', d')
    ensures RuleMatches(r, now) <==>
      DateLe(y, m, d, now.year, now.month, now.day) && DateLe(now.year, now.month, now.day, y', m', d')
  {
    DateTextsCompareAsDates(y, m, d, now.year, now.month, now.day);
    DateTextsCompareAsDates(now.year, now.month, now.day, y', m', d');
    assert |DateText(y, m, d)| == 10 && |DateText(y', m', d')| == 10;
  }

  function Swapped(r: Rule): Rule {
    r.(startTime := r.endTime, endTime := r.startTime)
  }

  /** On the listed days, a time range with its ends swapped is the opposite exactly when the ends differ. */
  lemma SwappedRangeIsTheNegation(r: Rule, now: Now)
    requires OnCalendar(now) && r.ruleType == "time_range"
    ensures var start, end := ParseHHMM(r.startTime), ParseHHMM(r.endTime);
            start.Some? && end.Some? ==>
              (RuleMatches(Swapped(r), now) == !RuleMatches(r, now)
               <==> start != end && (r.days == [] || Weekday(now) in r.days))
  {
    var start, end := ParseHHMM(r.startTime), ParseHHMM(r.endTime);
    if start.Some? && end.Some? {
      EmptyIsNoTime();
      assert RuleMatches(r, now) == TimeRangeMatches(r, now);
      assert RuleMatches(Swapped(r), now) == TimeRangeMatches(Swapped(r), now);
      var x := MinuteOfDay(now);
      assert InTimes(end.value, start.value, x) == !InTimes(start.value, end.value, x) <==> start != end;
    }
  }

  lemma EmptyIsNoTime()
    ensures ParseHHMM("").None?
  {
    assert IndexOf("", ':') == 0;
  }

  // ---------- the evaluator ----------

  predicate EvalExpr(e: Expr, now: Now)
    requires OnCalendar(now)
    decreases e, 1
  {
    match e.op
    case "rule" => e.rule.Some? && RuleMatches(e.rule.value, now)
    case "not" => |e.children| == 1 && !EvalExpr(e.children[0], now)
    case "and" => EvalAll(e.children, now)
    case "or" => EvalAny(e.children, now)
    case _ => false
  }

  /** The loop of "and": false at the first false child. */
  predicate EvalAll(cs: seq<Expr>, now: Now)
    requires OnCalendar(now)
    decreases cs, 0
  {
    |cs| == 0 || (EvalExpr(cs[0], now) && EvalAll(cs[1..], now))
  }

  /** The loop of "or": true at the first true child. */
  predicate EvalAny(cs: seq<Expr>, now: Now)
    requires OnCalendar(now)
    decreases cs, 0
  {
    |cs| > 0 && (EvalExpr(cs[0], now) || EvalAny(cs[1..], now))
  }

  lemma {:induction false} EvalAllIsForall(cs: seq<Expr>, now: Now)
    requires OnCalendar(now)
    ensures EvalAll(cs, now) <==> forall c :: c in cs ==> EvalExpr(c, now)
  {
    if |cs| > 0 {
      EvalAllIsForall(cs[1..], now);
      assert cs[0] in cs && forall c :: c in cs[1..] ==> c in cs;
      assert forall c :: c in cs ==> c == cs[0] || c in cs[1..];
    }
  }

  lemma {:induction false} EvalAnyIsExists(cs: seq<Expr>, now: Now)
    requires OnCalendar(now)
    ensures EvalAny(cs, now) <==> exists c :: c in cs && EvalExpr(c, now)
  {
    if |cs| > 0 {
      EvalAnyIsExists(cs[1..], now);
      assert cs[0] in cs && forall c :: c in cs[1..] ==> c in cs;
      assert forall c :: c in cs ==> c == cs[0] || c in cs[1..];
    }
  }

  /** The meaning of the branches that deny: an unknown operator, a missing rule, a negation of none or several, and
      a rule of no known type, without its bounds, or with a time that cannot be read. */
  lemma MalformedNodesDeny(e: Expr, r: Rule, now: Now)
    requires OnCalendar(now)
    ensures e.op !in ["rule", "not", "and", "or"] ==> !EvalExpr(e, now)
    ensures e.op == "rule" && e.rule.None? ==> !EvalExpr(e, now)
    ensures e.op == "not" && |e.children| != 1 ==> !EvalExpr(e, now)
    ensures r.ruleType !in ["time_range", "weekdays_range", "date_range", "day_of_month_range", "month_range"] ==>
      !RuleMatches(r, now)
    ensures r.ruleType == "time_range" && r.startTime != "" && ParseHHMM(r.startTime).None? && r.endTime != "" ==>
      !RuleMatches(r, now)
    ensures r.ruleType == "time_range" && r.endTime != "" && ParseHHMM(r.endTime).None? && r.startTime != "" ==>
      !RuleMatches(r, now)
    ensures r.ruleType == "weekdays_range" && (r.startDay.None? || r.endDay.None?) ==> !RuleMatches(r, now)
    ensures r.ruleType == "date_range" && (r.startDate == "" || r.endDate == "") ==> !RuleMatches(r, now)
    ensures r.ruleType == "day_of_month_range" && (r.startDOM.None? || r.endDOM.None?) ==> !RuleMatches(r, now)
    ensures r.ruleType == "month_range" && (r.startMonth.None? || r.endMonth.None?) ==> !RuleMatches(r, now)
  {
    var ops := ["rule", "not", "and", "or"];
    assert ops[0] == "rule" && ops[1] == "not" && ops[2] == "and" && ops[3] == "or";
    var types := ["time_range", "weekdays_range", "date_range", "day_of_month_range", "month_range"];
    assert types[0] == "time_range" && types[1] == "weekdays_range" && types[2] == "date_range";
    assert types[3] == "day_of_month_range" && types[4] == "month_range";
  }

  function Not(e: Expr): Expr {
    Expr("not", [e], None)
  }

  function And(cs: seq<Expr>): Expr {
    Expr("and", cs, None)
  }

  function Or(cs: seq<Expr>): Expr {
    Expr("or", cs, None)
  }

  function Negated(cs: seq<Expr>): seq<Expr> {
    if |cs| == 0 then [] else [Not(cs[0])] + Negated(cs[1..])
  }

  lemma {:induction false} NegatedLoops(cs: seq<Expr>, now: Now)
    requires OnCalendar(now)
    ensures EvalAny(Negated(cs), now) == !EvalAll(cs, now)
    ensures EvalAll(Negated(cs), now) == !EvalAny(cs, now)
  {
    if |cs| > 0 {
      NegatedLoops(cs[1..], now);
      assert Negated(cs)[1..] == Negated(cs[1..]);
      assert EvalExpr(Negated(cs)[0], now) == !EvalExpr(cs[0], now);
    }
  }

  /** De Morgan's laws, for any children, well-formed or not, and any number of them. */
  lemma DeMorgan(cs: seq<Expr>, now: Now)
    requires OnCalendar(now)
    ensures EvalExpr(Not(And(cs)), now) == EvalExpr(Or(Negated(cs)), now)
    ensures EvalExpr(Not(Or(cs)), now) == EvalExpr(And(Negated(cs)), now)
  {
    NegatedLoops(cs, now);
    assert EvalExpr(And(cs), now) == EvalAll(cs, now);
    assert EvalExpr(Or(cs), now) == EvalAny(cs, now);
  }

  // ---------- weekly trees ----------

  /** Every rule in the tree is a time range or a weekday range. */
  predicate IsWeekly(e: Expr) {
    && (e.op == "rule" && e.rule.Some? ==> e.rule.value.ruleType in {"time_range", "weekdays_range"})
    && forall c :: c in e.children ==> IsWeekly(c)
  }

  lemma ClockIsWeekly(now: Now, later: Now, weeks: int)
    requires later.minute == now.minute + weeks * (7 * DAY)
    ensures MinuteOfDay(later) == MinuteOfDay(now) && Weekday(later) == Weekday(now)
  {
    var days := weeks * 7;
    assert later.minute == now.minute + days * DAY;
    assert later.minute / DAY == now.minute / DAY + days;
  }

  /** A tree of time and weekday ranges decides the same any number of weeks earlier or later. */
  lemma {:induction false} WeeklyTreesRepeat(e: Expr, now: Now, later: Now, weeks: int)
    requires OnCalendar(now) && OnCalendar(later) && later.minute == now.minute + weeks * (7 * DAY)
    requires IsWeekly(e)
    ensures EvalExpr(e, now) == EvalExpr(e, later)
    decreases e, 1
  {
    ClockIsWeekly(now, later, weeks);
    WeeklyListsRepeat(e.children, now, later, weeks);
  }

  lemma {:induction false} WeeklyListsRepeat(cs: seq<Expr>, now: Now, later: Now, weeks: int)
    requires OnCalendar(now) && OnCalendar(later) && later.minute == now.minute + weeks * (7 * DAY)
    requires forall c :: c in cs ==> IsWeekly(c)
    ensures EvalAll(cs, now) == EvalAll(cs, later) && EvalAny(cs, now) == EvalAny(cs, later)
    ensures |cs| > 0 ==> EvalExpr(cs[0], now) == EvalExpr(cs[0], later)
    decreases cs, 0
  {
    if |cs| > 0 {
      WeeklyTreesRepeat(cs[0], now, later, weeks);
      WeeklyListsRepeat(cs[1..], now, later, weeks);
    }
  }

  // ---------- what a well-formed tree means ----------

  predicate Within(x: Option<int>, lo: int, hi: int) {
    x.Some? && lo <= x.value <= hi
  }

  predicate RuleIsWellFormed(r: Rule) {
    match r.ruleType
    case "time_range" =>
      && (r.startTime == "" || ParseHHMM(r.startTime).Some?)
      && (r.endTime == "" || ParseHHMM(r.endTime).Some?)
      && (forall d :: d in r.days ==> 0 <= d <= 6)
    case "weekdays_range" => Within(r.startDay, 0, 6) && Within(r.endDay, 0, 6)
    case "date_range" => r.startDate != "" && r.endDate != "" && TextLe(r.startDate, r.endDate)
    case "day_of_month_range" => Within(r.startDOM, 1, 31) && Within(r.endDOM, 1, 31)
    case "month_range" => Within(r.startMonth, 1, 12) && Within(r.endMonth, 1, 12)
    case _ => false
  }

  predicate WellFormed(e: Expr) {
    match e.op
    case "rule" => e.rule.Some? && RuleIsWellFormed(e.rule.value)
    case "not" => |e.children| == 1 && WellFormed(e.children[0])
    case "and" => |e.children| >= 2 && forall c :: c in e.children ==> WellFormed(c)
    case "or" => |e.children| >= 2 && forall c :: c in e.children ==> WellFormed(c)
    case _ => false
  }

  /** The rule as documented: an arc of the day, of the week, of the month or of the year, or a span of dates. */
  predicate RuleHolds(r: Rule, now: Now)
    requires OnCalendar(now) && RuleIsWellFormed(r)
  {
    match r.ruleType
    case "time_range" =>
      && (r.days == [] || Weekday(now) in r.days)
      && (r.startTime == "" || r.endTime == "" ||
          OnOpenArc(ParseHHMM(r.startTime).value, ParseHHMM(r.endTime).value, DAY, MinuteOfDay(now)))
    case "weekdays_range" => OnClosedArc(r.startDay.value, r.endDay.value, 7, Weekday(now))
    case "date_range" => HasCome(r.startDate, now) && HasNotPassed(r.endDate, now)
    case "day_of_month_range" => OnClosedArc(r.startDOM.value, r.endDOM.value, 31, now.day)
    case "month_range" => OnClosedArc(r.startMonth.value, r.endMonth.value, 12, now.month)
    case _ => false
  }

  lemma RulesMeanWhatTheySay(r: Rule, now: Now)
    requires OnCalendar(now) && RuleIsWellFormed(r)
    ensures RuleMatches(r, now) == RuleHolds(r, now)
  {
    if r.ruleType == "time_range" {
      if r.startTime != "" && r.endTime != "" {
        TimesAreOpenArcs(ParseHHMM(r.startTime).value, ParseHHMM(r.endTime).value, MinuteOfDay(now));
      }
    } else if r.ruleType == "date_range" {
      DatesAreComparedByTheCalendar(r.startDate, now);
      DatesAreComparedByTheCalendar(r.endDate, now);
    } else if r.ruleType == "weekdays_range" {
      RangesAreClosedArcs(r.startDay.value, r.endDay.value, 0, 7, Weekday(now));
    } else if r.ruleType == "day_of_month_range" {
      RangesAreClosedArcs(r.startDOM.value, r.endDOM.value, 1, 31, now.day);
    } else if r.ruleType == "month_range" {
      RangesAreClosedArcs(r.startMonth.value, r.endMonth.value, 1, 12, now.month);
    }
  }

  /** The standard meaning of and, or and not. */
  ghost predicate Holds(e: Expr, now: Now)
    requires OnCalendar(now) && WellFormed(e)
  {
    if e.op == "rule" then RuleHolds(e.rule.value, now)
    else if e.op == "not" then !Holds(e.children[0], now)
    else if e.op == "and" then forall c :: c in e.children ==> Holds(c, now)
    else exists c :: c in e.children && Holds(c, now)
  }

  /** Evaluating a well-formed tree decides its meaning. */
  lemma {:induction false} EvaluationIsMeaning(e: Expr, now: Now)
    requires OnCalendar(now) && WellFormed(e)
    ensures EvalExpr(e, now) == Holds(e, now)
  {
    if e.op == "rule" {
      RulesMeanWhatTheySay(e.rule.value, now);
    } else if e.op == "not" {
      EvaluationIsMeaning(e.children[0], now);
    } else {
      forall c | c in e.children
        ensures EvalExpr(c, now) == Holds(c, now)
      {
        EvaluationIsMeaning(c, now);
      }
      EvalAllIsForall(e.children, now);
      EvalAnyIsExists(e.children, now);
    }
  }

  // ---------- the same evaluator, watching its fall-through branches ----------

  function TimeRangeChecked(r: Rule, now: Now): Option<bool> {
    if |r.days| > 0 && Weekday(now) !in r.days then Some(false)
    else if r.startTime == "" || r.endTime == "" then Some(true)
    else
      var start, end := ParseHHMM(r.startTime), ParseHHMM(r.endTime);
      if start.None? || end.None? then None
      else Some(InTimes(start.value, end.value, MinuteOfDay(now)))
  }

  function BothInChecked(start: Option<int>, end: Option<int>, x: int): Option<bool> {
    if start.None? || end.None? then None else Some(InClosed(start.value, end.value, x))
  }

  function RuleChecked(r: Rule, now: Now): Option<bool>
    requires OnCalendar(now)
  {
    match r.ruleType
    case "time_range" => TimeRangeChecked(r, now)
    case "weekdays_range" => BothInChecked(r.startDay, r.endDay, Weekday(now))
    case "date_range" => if r.startDate == "" || r.endDate == "" then None else Some(DateRangeMatches(r, now))
    case "day_of_month_range" => BothInChecked(r.startDOM, r.endDOM, now.day)
    case "month_range" => BothInChecked(r.startMonth, r.endMonth, now.month)
    case _ => None
  }

  /** None if the evaluation runs into a branch that denies because the tree is malformed. */
  function EvalChecked(e: Expr, now: Now): Option<bool>
    requires OnCalendar(now)
    decreases e, 1
  {
    match e.op
    case "rule" => if e.rule.None? then None else RuleChecked(e.rule.value, now)
    case "not" =>
      if |e.children| != 1 then None else
        var c := EvalChecked(e.children[0], now);
        if c.None? then None else Some(!c.value)
    case "and" => LoopChecked(e.children, now, false)
    case "or" => LoopChecked(e.children, now, true)
    case _ => None
  }

  /** The early-return loop over children: it stops at the first child with this value. */
  function LoopChecked(cs: seq<Expr>, now: Now, stop: bool): Option<bool>
    requires OnCalendar(now)
    decreases cs, 0
  {
    if |cs| == 0 then Some(!stop) else
      var c := EvalChecked(cs[0], now);
      if c.None? then None else if c.value == stop then Some(stop) else LoopChecked(cs[1..], now, stop)
  }

  /** What is reported: every malformed rule, but for a time on a day that does not apply or beside a missing end. */
  lemma MalformedRulesAreReported(r: Rule, now: Now)
    requires OnCalendar(now)
    ensures r.ruleType == "time_range" ==>
      (RuleChecked(r, now).None? <==>
        && (r.days == [] || Weekday(now) in r.days)
        && r.startTime != "" && r.endTime != ""
        && (ParseHHMM(r.startTime).None? || ParseHHMM(r.endTime).None?))
    ensures r.ruleType == "date_range" ==> (RuleChecked(r, now).None? <==> r.startDate == "" || r.endDate == "")
    ensures r.ruleType == "weekdays_range" ==> (RuleChecked(r, now).None? <==> r.startDay.None? || r.endDay.None?)
    ensures r.ruleType == "day_of_month_range" ==>
      (RuleChecked(r, now).None? <==> r.startDOM.None? || r.endDOM.None?)
    ensures r.ruleType == "month_range" ==> (RuleChecked(r, now).None? <==> r.startMonth.None? || r.endMonth.None?)
    ensures !IsRuleType(r.ruleType) ==> RuleChecked(r, now).None?
  {
  }

  predicate IsRuleType(t: string) {
    || t == "time_range" || t == "weekdays_range" || t == "date_range"
    || t == "day_of_month_range" || t == "month_range"
  }

  /** As long as no such branch is reached, the watched evaluation is the evaluation. */
  lemma {:induction false} CheckedIsEval(e: Expr, now: Now)
    requires OnCalendar(now)
    ensures EvalChecked(e, now).Some? ==> EvalChecked(e, now).value == EvalExpr(e, now)
    decreases e, 1
  {
    LoopCheckedIsEval(e.children, now);
  }

  lemma {:induction false} LoopCheckedIsEval(cs: seq<Expr>, now: Now)
    requires OnCalendar(now)
    ensures LoopChecked(cs, now, false).Some? ==> LoopChecked(cs, now, false).value == EvalAll(cs, now)
    ensures LoopChecked(cs, now, true).Some? ==> LoopChecked(cs, now, true).value == EvalAny(cs, now)
    ensures |cs| > 0 && EvalChecked(cs[0], now).Some? ==> EvalChecked(cs[0], now).value == EvalExpr(cs[0], now)
    decreases cs, 0
  {
    if |cs| > 0 {
      CheckedIsEval(cs[0], now);
      LoopCheckedIsEval(cs[1..], now);
    }
  }

  lemma {:induction false} LoopNeverFallsThrough(cs: seq<Expr>, now: Now, stop: bool)
    requires OnCalendar(now) && forall c :: c in cs ==> WellFormed(c)
    ensures LoopChecked(cs, now, stop).Some?
    decreases cs, 0
  {
    if |cs| > 0 {
      NeverFallsThrough(cs[0], now);
      LoopNeverFallsThrough(cs[1..], now, stop);
    }
  }

  /** On a well-formed tree no malformed-tree branch is ever reached, at any time. */
  lemma {:induction false} NeverFallsThrough(e: Expr, now: Now)
    requires OnCalendar(now) && WellFormed(e)
    ensures EvalChecked(e, now).Some?
    decreases e, 1
  {
    if e.op == "not" {
      NeverFallsThrough(e.children[0], now);
    } else if e.op == "and" || e.op == "or" {
      LoopNeverFallsThrough(e.children, now, e.op == "or");
    }
  }
}
