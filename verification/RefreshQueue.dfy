/** The browser's silent refresh: one refresh at a time, requests that fail meanwhile wait in a queue. */
module RefreshQueue {
  /** A request is with the server, leads a refresh, waits in the queue, has been let go but not re-sent, or is over. */
  datatype Phase = Unsent | Sent | Leading | Queued | Released | Settled(ok: bool)

  /** retried is the mark kept on the request itself; settles counts how often its caller got an answer. */
  datatype Request = Request(phase: Phase, retried: bool, authUrl: bool, settles: nat)

  datatype Answer = Success | Unauthorized | OtherError

  datatype State = State(requests: seq<Request>, isRefreshing: bool, failQueue: seq<nat>, refreshes: nat)

  datatype Event =
    | Send(i: nat)
    | Respond(i: nat, answer: Answer)
    | RefreshDone(i: nat, ok: bool)
    | Resend(i: nat)

  function Settle(r: Request, ok: bool): Request {
    r.(phase := Settled(ok), settles := r.settles + 1)
  }

  /** drainQueue: every waiting request is let go, or rejected with the refresh's error. */
  function Drain(requests: seq<Request>, queue: seq<nat>, ok: bool): (drained: seq<Request>)
    ensures |drained| == |requests|
  {
    seq(|requests|, i requires 0 <= i < |requests| =>
      if i !in queue then requests[i] else if ok then requests[i].(phase := Released) else Settle(requests[i], false))
  }

  predicate Enabled(s: State, e: Event) {
    && e.i < |s.requests|
    && match e
       case Send(i) => s.requests[i].phase.Unsent?
       case Respond(i, _) => s.requests[i].phase.Sent?
       case RefreshDone(i, _) => s.requests[i].phase.Leading?
       case Resend(i) => s.requests[i].phase.Released?
  }

  /** The response interceptor, the answer to its refresh, and the continuations it leaves behind. */
  function Step(s: State, e: Event): State
    requires Enabled(s, e)
  {
    var r := s.requests[e.i];
    match e
    case Send(i) => s.(requests := s.requests[i := r.(phase := Sent)])
    case Resend(i) => s.(requests := s.requests[i := r.(phase := Sent)])
    case Respond(i, answer) =>
      if answer.Success? then s.(requests := s.requests[i := Settle(r, true)])
      else if answer != Unauthorized || r.retried || r.authUrl then s.(requests := s.requests[i := Settle(r, false)])
      else if s.isRefreshing then s.(requests := s.requests[i := r.(phase := Queued)], failQueue := s.failQueue + [i])
      else
        var leader := r.(phase := Leading, retried := true);
        s.(requests := s.requests[i := leader], isRefreshing := true, refreshes := s.refreshes + 1)
    case RefreshDone(i, ok) =>
      var drained := Drain(s.requests, s.failQueue, ok);
      var leader := if ok then drained[i].(phase := Sent) else Settle(drained[i], false);
      s.(requests := drained[i := leader], failQueue := [], isRefreshing := false)
  }

  // ---------- the interceptor ----------

  class Interceptor {
    var requests: seq<Request>
    var isRefreshing: bool
    var failQueue: seq<nat>
    var refreshes: nat

    constructor (requests: seq<Request>)
      ensures Now() == State(requests, false, [], 0)
    {
      this.requests, isRefreshing, failQueue, refreshes := requests, false, [], 0;
    }

    function Now(): State
      reads this
    {
      State(requests, isRefreshing, failQueue, refreshes)
    }

    method DrainQueue(ok: bool)
      requires forall k :: 0 <= k < |failQueue| ==> failQueue[k] < |requests|
      requires forall k, l :: 0 <= k < l < |failQueue| ==> failQueue[k] != failQueue[l]
      modifies this
      ensures requests == Drain(old(requests), old(failQueue), ok) && failQueue == []
      ensures isRefreshing == old(isRefreshing) && refreshes == old(refreshes)
      ensures |requests| == |old(requests)|
      ensures forall j :: 0 <= j < |requests| && j !in old(failQueue) ==> requests[j] == old(requests)[j]
      ensures forall j :: 0 <= j < |requests| && j in old(failQueue) ==>
        var before := old(requests)[j];
        if ok then requests[j] == Request(Released, before.retried, before.authUrl, before.settles)
        else requests[j] == Request(Settled(false), before.retried, before.authUrl, before.settles + 1)
    {
      var k := 0;
      while k < |failQueue|
        invariant 0 <= k <= |failQueue| && failQueue == old(failQueue)
        invariant isRefreshing == old(isRefreshing) && refreshes == old(refreshes)
        invariant requests == Drain(old(requests), failQueue[..k], ok)
      {
        var p := failQueue[k];
        assert p !in failQueue[..k];
        assert failQueue[..k + 1] == failQueue[..k] + [p];
        requests := requests[p := if ok then requests[p].(phase := Released) else Settle(requests[p], false)];
        k := k + 1;
      }
      assert failQueue[..|failQueue|] == failQueue;
      failQueue := [];
    }

    method OnResponse(i: nat, answer: Answer)
      requires Enabled(Now(), Respond(i, answer))
      modifies this
      ensures Now() == Step(old(Now()), Respond(i, answer))
      ensures |requests| == |old(requests)|
      ensures forall j :: 0 <= j < |requests| && j != i ==> requests[j] == old(requests)[j]
      ensures
        var before, after := old(requests)[i], requests[i];
        var refusable := answer == Unauthorized && !before.retried && !before.authUrl;
        && (answer == Success ==> after == Request(Settled(true), before.retried, before.authUrl, before.settles + 1))
        && (answer != Success && !refusable ==>
              after == Request(Settled(false), before.retried, before.authUrl, before.settles + 1))
        && (refusable && old(isRefreshing) ==>
              after == Request(Queued, false, before.authUrl, before.settles) && failQueue == old(failQueue) + [i])
        && (refusable && !old(isRefreshing) ==>
              after == Request(Leading, true, before.authUrl, before.settles) && failQueue == old(failQueue))
        && (isRefreshing <==> old(isRefreshing) || refusable)
        && refreshes == old(refreshes) + (if refusable && !old(isRefreshing) then 1 else 0)
    {
      var r := requests[i];
      if answer.Success? {
        requests := requests[i := Settle(r, true)];
        return;
      }
      if answer != Unauthorized || r.retried || r.authUrl {
        requests := requests[i := Settle(r, false)];
        return;
      }
      if isRefreshing {
        requests := requests[i := r.(phase := Queued)];
        failQueue := failQueue + [i];
        return;
      }
      requests := requests[i := r.(phase := Leading, retried := true)];
      isRefreshing := true;
      refreshes := refreshes + 1;
    }

    method OnRefreshDone(i: nat, ok: bool)
      requires Inv(Now()) && Enabled(Now(), RefreshDone(i, ok))
      modifies this
      ensures Now() == Step(old(Now()), RefreshDone(i, ok))
      ensures |requests| == |old(requests)| && failQueue == [] && !isRefreshing && refreshes == old(refreshes)
      ensures forall j :: 0 <= j < |requests| ==>
        var before, after := old(requests)[j], requests[j];
        && (before.phase == Queued && ok ==> after == Request(Released, false, before.authUrl, 0))
        && (before.phase == Leading && ok ==> after == Request(Sent, true, before.authUrl, 0))
        && (before.phase in {Queued, Leading} && !ok ==>
              after == Request(Settled(false), before.retried, before.authUrl, 1))
        && (before.phase !in {Queued, Leading} ==> after == before)
    {
      DrainQueue(ok);
      if ok {
        requests := requests[i := requests[i].(phase := Sent)];
      } else {
        requests := requests[i := Settle(requests[i], false)];
      }
      isRefreshing := false;
    }
  }

  // ---------- what every run keeps ----------

  ghost predicate Inv(s: State) {
    && (forall i, j :: 0 <= i < j < |s.requests| ==> !(s.requests[i].phase.Leading? && s.requests[j].phase.Leading?))
    && (s.isRefreshing <==> exists i :: 0 <= i < |s.requests| && s.requests[i].phase.Leading?)
    && (s.failQueue != [] ==> s.isRefreshing)
    && (forall k :: 0 <= k < |s.failQueue| ==> s.failQueue[k] < |s.requests|)
    && (forall k, l :: 0 <= k < l < |s.failQueue| ==> s.failQueue[k] != s.failQueue[l])
    && (forall i :: 0 <= i < |s.requests| ==> (s.requests[i].phase.Queued? <==> i in s.failQueue))
    && (forall i :: 0 <= i < |s.requests| ==>
          var r := s.requests[i];
          && r.settles == (if r.phase.Settled? then 1 else 0)
          && (r.phase.Leading? ==> r.retried)
          && (r.phase.Unsent? || r.phase.Queued? || r.phase.Released? ==> !r.retried))
    && s.refreshes == Sum(Retried, s.requests)
  }

  function Retried(r: Request): nat { if r.retried then 1 else 0 }

  function Sum(f: Request -> nat, requests: seq<Request>): nat {
    if |requests| == 0 then 0 else f(requests[0]) + Sum(f, requests[1..])
  }

  lemma {:induction false} SumUpdate(f: Request -> nat, requests: seq<Request>, i: nat, r: Request)
    requires i < |requests|
    ensures Sum(f, requests[i := r]) == Sum(f, requests) - f(requests[i]) + f(r)
    decreases |requests|
  {
    if i == 0 {
      assert requests[0 := r][1..] == requests[1..];
    } else {
      assert requests[i := r][1..] == requests[1..][i - 1 := r];
      SumUpdate(f, requests[1..], i - 1, r);
    }
  }

  lemma {:induction false} SumMonotone(f: Request -> nat, before: seq<Request>, after: seq<Request>)
    requires |before| == |after| && forall i :: 0 <= i < |before| ==> f(after[i]) <= f(before[i])
    ensures Sum(f, after) <= Sum(f, before)
    decreases |before|
  {
    if |before| > 0 {
      SumMonotone(f, before[1..], after[1..]);
    }
  }

  lemma {:induction false} SumAtMost(f: Request -> nat, requests: seq<Request>, bound: nat)
    requires forall i :: 0 <= i < |requests| ==> f(requests[i]) <= bound
    ensures Sum(f, requests) <= bound * |requests|
    decreases |requests|
  {
    if |requests| > 0 {
      SumAtMost(f, requests[1..], bound);
      assert bound * |requests| == bound + bound * |requests[1..]|;
    }
  }

  lemma DrainKeepsMarks(requests: seq<Request>, queue: seq<nat>, ok: bool)
    ensures Sum(Retried, Drain(requests, queue, ok)) == Sum(Retried, requests)
  {
    SumMonotone(Retried, requests, Drain(requests, queue, ok));
    SumMonotone(Retried, Drain(requests, queue, ok), requests);
  }

  lemma RefreshDoneKeepsInv(s: State, i: nat, ok: bool)
    requires Inv(s) && Enabled(s, RefreshDone(i, ok))
    ensures Inv(Step(s, RefreshDone(i, ok)))
  {
    var s' := Step(s, RefreshDone(i, ok));
    var drained := Drain(s.requests, s.failQueue, ok);
    assert i !in s.failQueue;
    DrainKeepsMarks(s.requests, s.failQueue, ok);
    SumUpdate(Retried, drained, i, s'.requests[i]);
    assert forall j :: 0 <= j < |s.requests| ==> !s'.requests[j].phase.Leading? && !s'.requests[j].phase.Queued?;
  }

  /** A request outside the queue that does not lead may move on to being sent or settled. */
  lemma MoveKeepsInv(s: State, i: nat, r: Request)
    requires Inv(s) && i < |s.requests|
    requires var p := s.requests[i].phase; p.Unsent? || p.Released? || p.Sent?
    requires (r.phase.Sent? || r.phase.Settled?) && r.settles == (if r.phase.Settled? then 1 else 0)
    requires r.retried == s.requests[i].retried
    ensures Inv(s.(requests := s.requests[i := r]))
  {
    var after := s.requests[i := r];
    SumUpdate(Retried, s.requests, i, r);
    assert i !in s.failQueue;
    assert forall j :: 0 <= j < |after| ==> (after[j].phase.Leading? <==> s.requests[j].phase.Leading?);
    if s.isRefreshing {
      var l :| 0 <= l < |s.requests| && s.requests[l].phase.Leading?;
      assert after[l].phase.Leading?;
    }
  }

  /** A request is refused the first time: it queues up or leads. */
  lemma RefusalKeepsInv(s: State, i: nat)
    requires Inv(s) && Enabled(s, Respond(i, Unauthorized)) && !s.requests[i].retried && !s.requests[i].authUrl
    ensures Inv(Step(s, Respond(i, Unauthorized)))
  {
    var s' := Step(s, Respond(i, Unauthorized));
    SumUpdate(Retried, s.requests, i, s'.requests[i]);
    assert i !in s.failQueue;
    if s.isRefreshing {
      assert forall j :: 0 <= j < |s.requests| ==> (s'.requests[j].phase.Leading? <==> s.requests[j].phase.Leading?);
    }
  }

  lemma StepKeepsInv(s: State, e: Event)
    requires Inv(s) && Enabled(s, e)
    ensures Inv(Step(s, e))
  {
    match e
    case Send(i) => MoveKeepsInv(s, i, s.requests[i].(phase := Sent));
    case Resend(i) => MoveKeepsInv(s, i, s.requests[i].(phase := Sent));
    case Respond(i, answer) =>
      if answer == Unauthorized && !s.requests[i].retried && !s.requests[i].authUrl {
        RefusalKeepsInv(s, i);
      } else {
        MoveKeepsInv(s, i, Settle(s.requests[i], answer.Success?));
      }
    case RefreshDone(i, ok) => RefreshDoneKeepsInv(s, i, ok);
  }

  // ---------- termination ----------

  /** Requests that may still lead a refresh. */
  function Unmarked(r: Request): nat { if r.retried || r.phase.Settled? then 0 else 1 }

  /** Steps a request can still take before somebody leads or ends a refresh. */
  function Hops(r: Request): nat {
    match r.phase
    case Unsent => 3
    case Released => 3
    case Sent => 2
    case Leading => 1
    case Queued => 1
    case Settled(_) => 0
  }

  /** The lexicographic measure (refreshes still possible, hops still possible), as one number. */
  function Measure(s: State): nat {
    Rank(s) * (3 * |s.requests| + 1) + Sum(Hops, s.requests)
  }

  lemma ProductGrows(x: nat, y: nat, m: nat)
    requires x <= y
    ensures x * m <= y * m
  {
    assert y * m == x * m + (y - x) * m;
  }

  lemma LexicographicDrop(a: nat, a': nat, w: nat, w': nat, m: nat)
    requires w' < m && (a' < a || (a' == a && w' < w))
    ensures a' * m + w' < a * m + w
  {
    if a' < a {
      ProductGrows(a' + 1, a, m);
      assert (a' + 1) * m == a' * m + m;
    }
  }

  function Rank(s: State): nat {
    2 * Sum(Unmarked, s.requests) + if s.isRefreshing then 1 else 0
  }

  /** Answering a refresh uses up its rank; every other step uses up a hop, or rank as well. */
  lemma RefreshDoneLowersRank(s: State, i: nat, ok: bool)
    requires Inv(s) && Enabled(s, RefreshDone(i, ok))
    ensures Rank(Step(s, RefreshDone(i, ok))) < Rank(s)
  {
    var drained := Drain(s.requests, s.failQueue, ok);
    assert i !in s.failQueue && drained[i].retried;
    SumMonotone(Unmarked, s.requests, drained);
    SumUpdate(Unmarked, drained, i, Step(s, RefreshDone(i, ok)).requests[i]);
  }

  lemma OtherStepsLowerRankOrHops(s: State, e: Event)
    requires Inv(s) && Enabled(s, e) && !e.RefreshDone?
    ensures var s' := Step(s, e);
            Rank(s') < Rank(s) || (Rank(s') == Rank(s) && Sum(Hops, s'.requests) < Sum(Hops, s.requests))
  {
    var r := Step(s, e).requests[e.i];
    SumUpdate(Unmarked, s.requests, e.i, r);
    SumUpdate(Hops, s.requests, e.i, r);
  }

  /** Every step lowers the measure, though queued requests are re-sent without the retry mark. */
  lemma StepDescends(s: State, e: Event)
    requires Inv(s) && Enabled(s, e)
    ensures Measure(Step(s, e)) < Measure(s)
  {
    var s' := Step(s, e);
    if e.RefreshDone? {
      RefreshDoneLowersRank(s, e.i, e.ok);
    } else {
      OtherStepsLowerRankOrHops(s, e);
    }
    SumAtMost(Hops, s'.requests, 3);
    LexicographicDrop(Rank(s), Rank(s'), Sum(Hops, s.requests), Sum(Hops, s'.requests), 3 * |s.requests| + 1);
  }

  ghost predicate Run(s: State, es: seq<Event>)
    decreases |es|
  {
    |es| == 0 || (Enabled(s, es[0]) && Run(Step(s, es[0]), es[1..]))
  }

  function Exec(s: State, es: seq<Event>): State
    requires Run(s, es)
    decreases |es|
  {
    if |es| == 0 then s else Exec(Step(s, es[0]), es[1..])
  }

  lemma {:induction false} RunKeepsInv(s: State, es: seq<Event>)
    requires Inv(s) && Run(s, es)
    ensures Inv(Exec(s, es)) && |es| + Measure(Exec(s, es)) <= Measure(s)
    ensures |Exec(s, es).requests| == |s.requests|
    decreases |es|
  {
    if |es| > 0 {
      StepKeepsInv(s, es[0]);
      StepDescends(s, es[0]);
      RunKeepsInv(Step(s, es[0]), es[1..]);
    }
  }

  lemma SomethingCanHappen(s: State, i: nat) returns (e: Event)
    requires Inv(s) && i < |s.requests| && !s.requests[i].phase.Settled?
    ensures Enabled(s, e)
  {
    match s.requests[i].phase
    case Unsent => e := Send(i);
    case Sent => e := Respond(i, Success);
    case Leading => e := RefreshDone(i, true);
    case Released => e := Resend(i);
    case Queued =>
      assert i in s.failQueue;
      var l :| 0 <= l < |s.requests| && s.requests[l].phase.Leading?;
      e := RefreshDone(l, true);
  }

  /** Requests nobody has sent yet; any of them may go to an auth endpoint. */
  function Init(authUrls: seq<bool>): State {
    State(seq(|authUrls|, i requires 0 <= i < |authUrls| => Request(Unsent, false, authUrls[i], 0)), false, [], 0)
  }

  lemma InitIsInv(authUrls: seq<bool>)
    ensures Inv(Init(authUrls))
    ensures Sum(Unmarked, Init(authUrls).requests) <= |authUrls| && Sum(Hops, Init(authUrls).requests) <= 3 * |authUrls|
  {
    SumAtMost(Retried, Init(authUrls).requests, 0);
    SumAtMost(Unmarked, Init(authUrls).requests, 1);
    SumAtMost(Hops, Init(authUrls).requests, 3);
  }

  /** For any set of requests and any server answers, at every moment: at most one refresh is in flight, a non-empty
      queue means one is, nobody has been answered twice, and no more refreshes were started than requests made. */
  lemma RefreshIsSingleFlight(authUrls: seq<bool>, es: seq<Event>)
    requires Run(Init(authUrls), es)
    ensures var s := Exec(Init(authUrls), es);
            && |set i | 0 <= i < |s.requests| && s.requests[i].phase.Leading?| <= 1
            && (s.failQueue != [] ==> s.isRefreshing)
            && (s.failQueue != [] ==> exists i :: 0 <= i < |s.requests| && s.requests[i].phase.Leading?)
            && (forall i :: 0 <= i < |s.requests| ==> s.requests[i].settles <= 1)
            && s.refreshes <= |authUrls|
  {
    InitIsInv(authUrls);
    RunKeepsInv(Init(authUrls), es);
    var s := Exec(Init(authUrls), es);
    SumAtMost(Retried, s.requests, 1);
    var leaders := set i | 0 <= i < |s.requests| && s.requests[i].phase.Leading?;
    if leaders != {} {
      var l :| l in leaders;
      assert leaders == {l};
    }
  }

  /** No run is longer than its bound, and a run that cannot go on has answered every request exactly once. */
  lemma EveryRunEnds(authUrls: seq<bool>, es: seq<Event>)
    requires Run(Init(authUrls), es)
    ensures var n, s := |authUrls|, Exec(Init(authUrls), es);
            && |es| <= 2 * n * (3 * n + 1) + 3 * n
            && |s.requests| == n
            && ((forall e :: !Enabled(s, e)) ==>
                  forall i :: 0 <= i < n ==> s.requests[i].phase.Settled? && s.requests[i].settles == 1)
  {
    var n, s0 := |authUrls|, Init(authUrls);
    InitIsInv(authUrls);
    RunKeepsInv(s0, es);
    var u := Sum(Unmarked, s0.requests);
    ProductGrows(2 * u, 2 * n, 3 * n + 1);
    var s := Exec(s0, es);
    if forall e :: !Enabled(s, e) {
      forall i | 0 <= i < |s.requests|
        ensures s.requests[i].phase.Settled?
      {
        if !s.requests[i].phase.Settled? {
          var e := SomethingCanHappen(s, i);
        }
      }
    }
  }

  // ---------- who is answered what ----------

  /** A request is answered with success only by its own successful answer, and with an error only by its own answer,
      unless that makes it wait or lead, or by the failure of a refresh it led or waited for. */
  ghost predicate Answers(s: State, e: Event, j: nat, ok: bool)
    requires j < |s.requests|
  {
    var r := s.requests[j];
    if ok then e == Respond(j, Success)
    else
      || e == Respond(j, OtherError)
      || (e == Respond(j, Unauthorized) && (r.retried || r.authUrl))
      || (e.RefreshDone? && !e.ok && r.phase in {Leading, Queued})
  }

  lemma StepAnswers(s: State, e: Event, j: nat)
    requires Inv(s) && Enabled(s, e) && j < |s.requests|
    ensures |Step(s, e).requests| == |s.requests|
    ensures
      var before, after := s.requests[j], Step(s, e).requests[j];
      && (before.phase.Settled? ==> after == before)
      && (!before.phase.Settled? ==> forall ok :: after.phase == Settled(ok) <==> Answers(s, e, j, ok))
  {
    if e.RefreshDone? {
      var l :| 0 <= l < |s.requests| && s.requests[l].phase.Leading?;
      assert s.requests[e.i].phase.Leading? && l == e.i;
      assert s.requests[j].phase.Queued? <==> j in s.failQueue;
    }
  }

  /** In every run, at every step: who has been answered stays so, and everyone else is answered by exactly the
      events that should answer them. */
  lemma EveryAnswerHasItsReason(authUrls: seq<bool>, es: seq<Event>, e: Event, j: nat)
    requires Run(Init(authUrls), es) && Enabled(Exec(Init(authUrls), es), e) && j < |authUrls|
    ensures
      var s := Exec(Init(authUrls), es);
      && |s.requests| == |Step(s, e).requests| == |authUrls|
      && var before, after := s.requests[j], Step(s, e).requests[j];
      && (before.phase.Settled? ==> after == before)
      && (!before.phase.Settled? ==> forall ok :: after.phase == Settled(ok) <==> Answers(s, e, j, ok))
  {
    InitIsInv(authUrls);
    RunKeepsInv(Init(authUrls), es);
    StepAnswers(Exec(Init(authUrls), es), e, j);
  }

  /** In every run, a successful refresh lets exactly the waiting requests go, unmarked and unanswered. */
  lemma SuccessReleasesTheQueue(authUrls: seq<bool>, es: seq<Event>, e: Event, j: nat)
    requires Run(Init(authUrls), es) && Enabled(Exec(Init(authUrls), es), e) && j < |authUrls|
    requires |Exec(Init(authUrls), es).requests| == |authUrls|
    ensures
      var s := Exec(Init(authUrls), es);
      var before, after := s.requests[j], Step(s, e).requests[j];
      !before.phase.Released? ==>
        (after.phase.Released? <==> e.RefreshDone? && e.ok && before.phase.Queued?)
        && (after.phase.Released? ==> !after.retried && after.settles == 0)
  {
    InitIsInv(authUrls);
    RunKeepsInv(Init(authUrls), es);
    var s := Exec(Init(authUrls), es);
    if e.RefreshDone? {
      assert s.requests[j].phase.Queued? <==> j in s.failQueue;
    }
  }
}
