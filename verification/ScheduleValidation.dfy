/** The schedule validator, and the stored schedules it guards. */
module ScheduleValidation {
  import opened Prelude
  import opened Decimal
  import opened Schedule

  /** Why a node is refused. */
  datatype Problem =
    | MissingRule
    | NotNeedsOneChild(got: nat)
    | NeedsTwoChildren(op: string, got: nat)
    | UnknownOp(op: string)
    | InvalidStartTime(text: string)
    | InvalidEndTime(text: string)
    | InvalidDay(day: int)
    | MissingBounds(ruleType: string)
    | BoundsOutOfRange(ruleType: string)
    | DatesOutOfOrder
    | UnknownRuleType(ruleType: string)

  /** A path is the child positions from the root; the message shows it as text. */
  datatype Refusal = Refusal(path: seq<nat>, problem: Problem)

  function PathText(root: string, path: seq<nat>): string {
    if |path| == 0 then root
    else PathText(root, path[..|path| - 1]) + ".children[" + Numeral(path[|path| - 1]) + "]"
  }

  function FirstBadDay(days: seq<int>): Option<int> {
    if |days| == 0 then None else if days[0] < 0 || days[0] > 6 then Some(days[0]) else FirstBadDay(days[1..])
  }

  function BoundsProblem(ruleType: string, start: Option<int>, end: Option<int>, lo: int, hi: int): Option<Problem> {
    if start.None? || end.None? then Some(MissingBounds(ruleType))
    else if start.value < lo || start.value > hi then Some(BoundsOutOfRange(ruleType))
    else if end.value < lo || end.value > hi then Some(BoundsOutOfRange(ruleType))
    else None
  }

  function ValidateRule(r: Rule): Option<Problem> {
    match r.ruleType
    case "time_range" =>
      if r.startTime != "" && ParseHHMM(r.startTime).None? then Some(InvalidStartTime(r.startTime))
      else if r.endTime != "" && ParseHHMM(r.endTime).None? then Some(InvalidEndTime(r.endTime))
      else
        var bad := FirstBadDay(r.days);
        if bad.Some? then Some(InvalidDay(bad.value)) else None
    case "weekdays_range" => BoundsProblem(r.ruleType, r.startDay, r.endDay, 0, 6)
    case "date_range" =>
      if r.startDate == "" || r.endDate == "" then Some(MissingBounds(r.ruleType))
      else if !TextLe(r.startDate, r.endDate) then Some(DatesOutOfOrder)
      else None
    case "day_of_month_range" => BoundsProblem(r.ruleType, r.startDOM, r.endDOM, 1, 31)
    case "month_range" => BoundsProblem(r.ruleType, r.startMonth, r.endMonth, 1, 12)
    case _ => Some(UnknownRuleType(r.ruleType))
  }

  /** A rule's problem is what it is called. */
  lemma RuleProblemsAreAsNamed(r: Rule)
    ensures match ValidateRule(r)
      case None => true
      case Some(InvalidStartTime(s)) =>
        r.ruleType == "time_range" && s == r.startTime != "" && ParseHHMM(s).None?
      case Some(InvalidEndTime(s)) =>
        r.ruleType == "time_range" && s == r.endTime != "" && ParseHHMM(s).None?
        && (r.startTime == "" || ParseHHMM(r.startTime).Some?)
      case Some(InvalidDay(d)) => r.ruleType == "time_range" && d in r.days && !(0 <= d <= 6)
      case Some(MissingBounds(t)) =>
        && t == r.ruleType
        && (t == "weekdays_range" ==> r.startDay.None? || r.endDay.None?)
        && (t == "date_range" ==> r.startDate == "" || r.endDate == "")
        && (t == "day_of_month_range" ==> r.startDOM.None? || r.endDOM.None?)
        && (t == "month_range" ==> r.startMonth.None? || r.endMonth.None?)
        && t in ["weekdays_range", "date_range", "day_of_month_range", "month_range"]
      case Some(BoundsOutOfRange(t)) =>
        && t == r.ruleType
        && (t == "weekdays_range" ==>
              r.startDay.Some? && r.endDay.Some? && !(Within(r.startDay, 0, 6) && Within(r.endDay, 0, 6)))
        && (t == "day_of_month_range" ==>
              r.startDOM.Some? && r.endDOM.Some? && !(Within(r.startDOM, 1, 31) && Within(r.endDOM, 1, 31)))
        && (t == "month_range" ==>
              r.startMonth.Some? && r.endMonth.Some? && !(Within(r.startMonth, 1, 12) && Within(r.endMonth, 1, 12)))
        && t in ["weekdays_range", "day_of_month_range", "month_range"]
      case Some(DatesOutOfOrder) =>
        r.ruleType == "date_range" && r.startDate != "" && r.endDate != "" && !TextLe(r.startDate, r.endDate)
      case Some(UnknownRuleType(t)) =>
        t == r.ruleType
        && t !in ["time_range", "weekdays_range", "date_range", "day_of_month_range", "month_range"]
      case Some(_) => false
  {
    var types := ["time_range", "weekdays_range", "date_range", "day_of_month_range", "month_range"];
    assert types[0] == "time_range" && types[1] == "weekdays_range" && types[2] == "date_range";
    assert types[3] == "day_of_month_range" && types[4] == "month_range";
    FirstBadDayIsListed(r.days);
  }

  lemma {:induction false} FirstBadDayIsListed(days: seq<int>)
    ensures FirstBadDay(days).Some? ==> FirstBadDay(days).value in days && !(0 <= FirstBadDay(days).value <= 6)
  {
    if |days| > 0 {
      FirstBadDayIsListed(days[1..]);
    }
  }

  /** The text of a path names the child positions in order. */
  lemma PathsReadFromTheRoot(root: string, path: seq<nat>, i: nat)
    ensures PathText(root, []) == root
    ensures PathText(root, path + [i]) == PathText(root, path) + ".children[" + Numeral(i) + "]"
  {
    assert (path + [i])[..|path|] == path;
  }

  function ValidateExpr(e: Expr, path: seq<nat>): Option<Refusal>
    decreases e, 1
  {
    match e.op
    case "rule" =>
      if e.rule.None? then Some(Refusal(path, MissingRule)) else
        var problem := ValidateRule(e.rule.value);
        if problem.Some? then Some(Refusal(path, problem.value)) else None
    case "not" =>
      if |e.children| != 1 then Some(Refusal(path, NotNeedsOneChild(|e.children|)))
      else ValidateExpr(e.children[0], path + [0])
    case "and" =>
      if |e.children| < 2 then Some(Refusal(path, NeedsTwoChildren(e.op, |e.children|)))
      else ValidateList(e.children, path, 0)
    case "or" =>
      if |e.children| < 2 then Some(Refusal(path, NeedsTwoChildren(e.op, |e.children|)))
      else ValidateList(e.children, path, 0)
    case _ => Some(Refusal(path, UnknownOp(e.op)))
  }

  /** The loop over children from position i on: the first refusal wins. */
  function ValidateList(cs: seq<Expr>, path: seq<nat>, i: nat): Option<Refusal>
    decreases cs, 0
  {
    if |cs| == 0 then None else
      var first := ValidateExpr(cs[0], path + [i]);
      if first.Some? then first else ValidateList(cs[1..], path, i + 1)
  }

  // ---------- accepted means well-formed ----------

  lemma {:induction false} DaysAreValidIffAllInRange(days: seq<int>)
    ensures FirstBadDay(days).None? <==> forall d :: d in days ==> 0 <= d <= 6
  {
    if |days| > 0 {
      DaysAreValidIffAllInRange(days[1..]);
      assert days[0] in days && forall d :: d in days[1..] ==> d in days;
      assert forall d :: d in days ==> d == days[0] || d in days[1..];
    }
  }

  lemma RuleIsAcceptedIffWellFormed(r: Rule)
    ensures ValidateRule(r).None? <==> RuleIsWellFormed(r)
  {
    DaysAreValidIffAllInRange(r.days);
  }

  /** The validator accepts exactly the well-formed trees. */
  lemma {:induction false} AcceptedIffWellFormed(e: Expr, path: seq<nat>)
    ensures ValidateExpr(e, path).None? <==> WellFormed(e)
    decreases e, 1
  {
    if e.op == "rule" {
      if e.rule.Some? {
        RuleIsAcceptedIffWellFormed(e.rule.value);
      }
    } else if e.op == "not" {
      if |e.children| == 1 {
        AcceptedIffWellFormed(e.children[0], path + [0]);
      }
    } else {
      ListIsAcceptedIffWellFormed(e.children, path, 0);
    }
  }

  lemma {:induction false} ListIsAcceptedIffWellFormed(cs: seq<Expr>, path: seq<nat>, i: nat)
    ensures ValidateList(cs, path, i).None? <==> forall c :: c in cs ==> WellFormed(c)
    decreases cs, 0
  {
    if |cs| > 0 {
      AcceptedIffWellFormed(cs[0], path + [i]);
      ListIsAcceptedIffWellFormed(cs[1..], path, i + 1);
      assert cs[0] in cs && forall c :: c in cs[1..] ==> c in cs;
      assert forall c :: c in cs ==> c == cs[0] || c in cs[1..];
    }
  }

  // ---------- the reported place ----------

  /** The node at a path, if the operators on the way have children. */
  predicate Reaches(e: Expr, path: seq<nat>) {
    |path| == 0 ||
    ((e.op == "not" || e.op == "and" || e.op == "or")
     && path[0] < |e.children| && Reaches(e.children[path[0]], path[1..]))
  }

  function NodeAt(e: Expr, path: seq<nat>): Expr
    requires Reaches(e, path)
  {
    if |path| == 0 then e else NodeAt(e.children[path[0]], path[1..])
  }

  /** What is wrong with a node, its descendants aside. */
  function NodeProblem(e: Expr): Option<Problem> {
    match e.op
    case "rule" => if e.rule.None? then Some(MissingRule) else ValidateRule(e.rule.value)
    case "not" => if |e.children| != 1 then Some(NotNeedsOneChild(|e.children|)) else None
    case "and" => if |e.children| < 2 then Some(NeedsTwoChildren(e.op, |e.children|)) else None
    case "or" => if |e.children| < 2 then Some(NeedsTwoChildren(e.op, |e.children|)) else None
    case _ => Some(UnknownOp(e.op))
  }

  /** Document order: a node before its descendants, earlier children before later ones. */
  predicate Before(p: seq<nat>, q: seq<nat>) {
    |q| > 0 && (|p| == 0 || p[0] < q[0] || (p[0] == q[0] && Before(p[1..], q[1..])))
  }

  /** The order is total: of two places exactly one comes first. */
  lemma {:induction false} PlacesAreOrdered(p: seq<nat>, q: seq<nat>)
    ensures Before(p, q) <==> p != q && !Before(q, p)
    decreases |p|
  {
    if |p| > 0 && |q| > 0 {
      PlacesAreOrdered(p[1..], q[1..]);
      assert p == [p[0]] + p[1..] && q == [q[0]] + q[1..];
    }
  }

  /** Below a common place, the place itself comes before its children, and an earlier child, with all that is
      below it, before a later one. */
  lemma {:induction false} ParentsAndEarlierChildrenFirst(at: seq<nat>, i: nat, j: nat, p: seq<nat>, q: seq<nat>)
    requires i < j
    ensures Before(at, at + ([i] + p)) && Before(at + ([i] + p), at + ([j] + q))
    decreases |at|
  {
    if |at| == 0 {
      assert at + ([i] + p) == [i] + p && at + ([j] + q) == [j] + q;
    } else {
      ParentsAndEarlierChildrenFirst(at[1..], i, j, p, q);
      assert (at + ([i] + p))[1..] == at[1..] + ([i] + p) && (at + ([j] + q))[1..] == at[1..] + ([j] + q);
    }
  }

  /** The node at p is the first one in document order with something wrong, and this is what is wrong. */
  ghost predicate IsFirstProblem(e: Expr, p: seq<nat>, problem: Problem) {
    && Reaches(e, p)
    && NodeProblem(NodeAt(e, p)) == Some(problem)
    && forall q :: Reaches(e, q) && Before(q, p) ==> NodeProblem(NodeAt(e, q)).None?
  }

  lemma {:induction false} WellFormedNodesHaveNoProblem(e: Expr, q: seq<nat>)
    requires WellFormed(e) && Reaches(e, q)
    ensures NodeProblem(NodeAt(e, q)).None?
    decreases |q|
  {
    if |q| > 0 {
      WellFormedNodesHaveNoProblem(e.children[q[0]], q[1..]);
    } else if e.op == "rule" {
      RuleIsAcceptedIffWellFormed(e.rule.value);
    }
  }

  lemma FirstProblemBelow(e: Expr, i: nat, p: seq<nat>, problem: Problem)
    requires (e.op == "not" || e.op == "and" || e.op == "or") && NodeProblem(e).None? && i < |e.children|
    requires forall j :: 0 <= j < i ==> WellFormed(e.children[j])
    requires IsFirstProblem(e.children[i], p, problem)
    ensures IsFirstProblem(e, [i] + p, problem)
  {
    assert ([i] + p)[1..] == p;
    forall q | Reaches(e, q) && Before(q, [i] + p)
      ensures NodeProblem(NodeAt(e, q)).None?
    {
      if |q| > 0 && q[0] < i {
        WellFormedNodesHaveNoProblem(e.children[q[0]], q[1..]);
      }
    }
  }

  /** A refusal names the first problem of the tree in document order. */
  lemma {:induction false} RefusalIsTheFirstProblem(e: Expr, path: seq<nat>) returns (p: seq<nat>)
    requires ValidateExpr(e, path).Some?
    ensures ValidateExpr(e, path).value.path == path + p
    ensures IsFirstProblem(e, p, ValidateExpr(e, path).value.problem)
    decreases e, 1
  {
    if NodeProblem(e).Some? {
      p := [];
      assert path + p == path;
    } else if e.op == "not" {
      var below := RefusalIsTheFirstProblem(e.children[0], path + [0]);
      p := [0] + below;
      assert path + [0] + below == path + p;
      FirstProblemBelow(e, 0, below, ValidateExpr(e, path).value.problem);
    } else {
      var i, below := ListRefusal(e.children, path, 0);
      p := [i] + below;
      FirstProblemBelow(e, i, below, ValidateExpr(e, path).value.problem);
    }
  }

  lemma {:induction false} ListRefusal(cs: seq<Expr>, path: seq<nat>, at: nat) returns (i: nat, below: seq<nat>)
    requires ValidateList(cs, path, at).Some?
    ensures i < |cs| && ValidateList(cs, path, at).value.path == path + ([at + i] + below)
    ensures forall j :: 0 <= j < i ==> WellFormed(cs[j])
    ensures IsFirstProblem(cs[i], below, ValidateList(cs, path, at).value.problem)
    decreases cs, 0
  {
    AcceptedIffWellFormed(cs[0], path + [at]);
    if ValidateExpr(cs[0], path + [at]).Some? {
      i := 0;
      below := RefusalIsTheFirstProblem(cs[0], path + [at]);
      assert path + [at] + below == path + ([at] + below);
    } else {
      i, below := ListRefusal(cs[1..], path, at + 1);
      i := i + 1;
    }
  }

  // ---------- stored schedules ----------

  datatype AccessSchedule = AccessSchedule(name: string, expr: Option<Expr>)

  datatype ScheduleError = Invalid(path: string, problem: Problem) | NotFound | Denied(name: string)

  class ScheduleService {
    var schedules: map<int, AccessSchedule>

    ghost predicate Valid()
      reads this
    {
      forall id :: id in schedules && schedules[id].expr.Some? ==> WellFormed(schedules[id].expr.value)
    }

    constructor ()
      ensures Valid() && schedules == map[]
    {
      schedules := map[];
    }

    /** Create under a new id, or Update of an existing one: nothing malformed is ever stored. */
    method Save(id: int, name: string, expr: Option<Expr>, create: bool)
      returns (r: Result<AccessSchedule, ScheduleError>)
      requires Valid() && (create ==> id !in schedules)
      modifies this
      ensures Valid()
      ensures r.Ok? <==> (expr.None? || WellFormed(expr.value)) && (create || id in old(schedules))
      ensures schedules == if r.Ok? then old(schedules)[id := AccessSchedule(name, expr)] else old(schedules)
      ensures r.Ok? ==> r.value == AccessSchedule(name, expr)
      ensures r.Err? && (expr.None? || WellFormed(expr.value)) ==> r.error == NotFound
      ensures r.Err? && expr.Some? && !WellFormed(expr.value) ==>
        exists p, problem :: IsFirstProblem(expr.value, p, problem) && r.error == Invalid(PathText("expr", p), problem)
    {
      if expr.Some? {
        AcceptedIffWellFormed(expr.value, []);
        var refusal := ValidateExpr(expr.value, []);
        if refusal.Some? {
          ghost var p := RefusalIsTheFirstProblem(expr.value, []);
          assert refusal.value.path == p;
          return Err(Invalid(PathText("expr", refusal.value.path), refusal.value.problem));
        }
      }
      if !create && id !in schedules {
        return Err(NotFound);
      }
      schedules := schedules[id := AccessSchedule(name, expr)];
      r := Ok(AccessSchedule(name, expr));
    }

    /** A stored schedule allows access exactly when it has no expression or its expression holds. */
    method Check(id: int, now: Now) returns (r: Result<(), ScheduleError>)
      requires Valid() && id in schedules && OnCalendar(now)
      ensures
        var schedule := schedules[id];
        r == if schedule.expr.None? || Holds(schedule.expr.value, now) then Ok(()) else Err(Denied(schedule.name))
    {
      var schedule := schedules[id];
      if schedule.expr.None? {
        return Ok(());
      }
      EvaluationIsMeaning(schedule.expr.value, now);
      if EvalExpr(schedule.expr.value, now) {
        return Ok(());
      }
      r := Err(Denied(schedule.name));
    }
  }
}
