/**
 The WBS orchestrator: picks the next open step, dispatches or re-dispatches it, and gives up on
 it at the retry ceiling. It judges the retry count; the downstream node increments it.
 */
module Orchestrator {
  import opened Prelude

  const MAX_RETRIES: int := 2
  const RED_ALERT_CSS: real := 40.0

  datatype Status =
    | Pending | InProgress | Completed | Failed
    | AwaitingApproval | Rejected | RevisionRequested

  datatype Step = Step(number: int, role: string, status: Status)

  /** The state delta the node returns; None means the key is left alone. */
  datatype Delta =
    | Missing                                  // no mission or no tasks
    | Finished                                 // every step completed or failed
    | GaveUp(active: Step, tasks: seq<Step>)   // ceiling reached: the retry count returns to 0
    | Dispatch(active: Step, update: Option<seq<Step>>, redAlert: bool)

  predicate Settled(status: Status) {
    status.Completed? || status.Failed?
  }

  /** Index of the first step that is neither completed nor failed. */
  function PickNext(tasks: seq<Step>): (i: nat)
    ensures i <= |tasks| && (i < |tasks| ==> !Settled(tasks[i].status))
    ensures forall j :: 0 <= j < i ==> Settled(tasks[j].status)
  {
    if tasks == [] || !Settled(tasks[0].status) then 0 else 1 + PickNext(tasks[1..])
  }

  function Marked(tasks: seq<Step>, number: int, status: Status): (r: seq<Step>)
    ensures |r| == |tasks|
    ensures forall i :: 0 <= i < |tasks| ==>
      r[i] == if tasks[i].number == number then tasks[i].(status := status) else tasks[i]
  {
    seq(|tasks|, i requires 0 <= i < |tasks| =>
      if tasks[i].number == number then tasks[i].(status := status) else tasks[i])
  }

  function RunNode(mission: Option<seq<Step>>, retryCount: int, css: real): Delta {
    if mission.None? || mission.value == [] then Missing
    else
      var tasks := mission.value;
      var i := PickNext(tasks);
      if i == |tasks| then Finished
      else
        var active := tasks[i];
        if retryCount > MAX_RETRIES then GaveUp(active, Marked(tasks, active.number, Failed))
        else if active.status == InProgress then Dispatch(active, None, css < RED_ALERT_CSS)
        else Dispatch(active, Some(Marked(tasks, active.number, InProgress)), css < RED_ALERT_CSS)
  }

  // ---------------------------------------------------------------------
  // Runs: the node alternates with a downstream that reports on the dispatched step
  // ---------------------------------------------------------------------

  /** The downstream either settles the step or leaves it open; `css` is the context score of the visit. */
  datatype Report = Report(settles: bool, status: Status, css: real)

  predicate ValidReport(r: Report) {
    r.settles == Settled(r.status)
  }

  ghost predicate ValidReports(rs: seq<Report>) {
    forall r :: r in rs ==> ValidReport(r)
  }

  datatype State = State(tasks: seq<Step>, retryCount: nat)

  /**
   One visit of the node and, if it dispatched, the downstream's report. The downstream counts a retry
   of an open step until the count has reached `cap`; its contract with the node is to count on.
   */
  function Visit(s: State, cap: nat, r: Report): State {
    match RunNode(Some(s.tasks), s.retryCount, r.css)
    case Missing => s
    case Finished => s
    case GaveUp(_, tasks) => State(tasks, 0)
    case Dispatch(active, update, _) =>
      var dispatched := if update.Some? then update.value else s.tasks;
      State(Marked(dispatched, active.number, r.status), Counted(s.retryCount, cap, r))
  }

  function Counted(retryCount: nat, cap: nat, r: Report): nat {
    if r.settles || retryCount >= cap then retryCount else retryCount + 1
  }

  function Run(s: State, cap: nat, rs: seq<Report>): State {
    if rs == [] then s else Visit(Run(s, cap, rs[..|rs| - 1]), cap, rs[|rs| - 1])
  }

  ghost predicate Distinct(tasks: seq<Step>) {
    forall i, j :: 0 <= i < j < |tasks| ==> tasks[i].number != tasks[j].number
  }

  function OpenCount(tasks: seq<Step>): nat {
    if tasks == [] then 0 else (if Settled(tasks[0].status) then 0 else 1) + OpenCount(tasks[1..])
  }

  /** Visits left at most: four per open step, less the retries already counted. */
  function Budget(s: State): nat {
    var open := OpenCount(s.tasks);
    if open == 0 then 0 else 4 * open - if s.retryCount < 3 then s.retryCount else 3
  }

  lemma {:induction false} OpenCountZeroIff(tasks: seq<Step>)
    ensures OpenCount(tasks) == 0 <==> PickNext(tasks) == |tasks|
  {
    if tasks != [] {
      OpenCountZeroIff(tasks[1..]);
    }
  }

  /** Changing one open step's status changes the count by what it was and what it becomes. */
  lemma {:induction false} OpenCountUpdate(tasks: seq<Step>, i: nat, t: Step)
    requires i < |tasks| && !Settled(tasks[i].status)
    ensures OpenCount(tasks[i := t]) == OpenCount(tasks) - (if Settled(t.status) then 1 else 0)
    ensures OpenCount(tasks) > 0
  {
    if i > 0 {
      assert tasks[i := t][1..] == tasks[1..][i - 1 := t];
      OpenCountUpdate(tasks[1..], i - 1, t);
    } else {
      assert tasks[0 := t][1..] == tasks[1..];
    }
  }

  /** With distinct numbers, marking a step touches that step alone. */
  lemma MarkedIsUpdate(tasks: seq<Step>, i: nat, status: Status)
    requires Distinct(tasks) && i < |tasks|
    ensures Marked(tasks, tasks[i].number, status) == tasks[i := tasks[i].(status := status)]
  {
    var r := Marked(tasks, tasks[i].number, status);
    forall j | 0 <= j < |tasks|
      ensures r[j] == tasks[i := tasks[i].(status := status)][j]
    {
      if j < i {
        assert tasks[j].number != tasks[i].number;
      } else if i < j {
        assert tasks[i].number != tasks[j].number;
      }
    }
  }

  /** One visit moves exactly the first open step, to the status it should get. */
  lemma VisitMovesFirstOpen(s: State, cap: nat, r: Report)
    requires Distinct(s.tasks)
    ensures var i := PickNext(s.tasks);
            Visit(s, cap, r)
            == if i == |s.tasks| then s
               else if s.retryCount > MAX_RETRIES then State(s.tasks[i := s.tasks[i].(status := Failed)], 0)
               else State(s.tasks[i := s.tasks[i].(status := r.status)], Counted(s.retryCount, cap, r))
  {
    var i := PickNext(s.tasks);
    if i < |s.tasks| {
      var n := s.tasks[i].number;
      MarkedIsUpdate(s.tasks, i, Failed);
      MarkedIsUpdate(s.tasks, i, InProgress);
      MarkedIsUpdate(s.tasks, i, r.status);
      assert Marked(Marked(s.tasks, n, InProgress), n, r.status) == Marked(s.tasks, n, r.status);
    }
  }

  lemma UpdateKeepsDistinct(tasks: seq<Step>, i: nat, status: Status)
    requires Distinct(tasks) && i < |tasks|
    ensures Distinct(tasks[i := tasks[i].(status := status)])
  {
  }

  /** Each visit keeps settled steps as they are, never goes back, and uses up the budget if retries count. */
  lemma VisitProgress(s: State, cap: nat, r: Report)
    requires Distinct(s.tasks) && ValidReport(r)
    ensures var t := Visit(s, cap, r);
            && Distinct(t.tasks) && |t.tasks| == |s.tasks|
            && (forall j :: 0 <= j < |s.tasks| && Settled(s.tasks[j].status) ==> t.tasks[j] == s.tasks[j])
            && PickNext(s.tasks) <= PickNext(t.tasks)
            && (cap > MAX_RETRIES && Budget(s) > 0 ==> Budget(t) < Budget(s))
            && (Budget(s) == 0 ==> t == s)
  {
    hide Visit, Marked, RunNode;
    VisitMovesFirstOpen(s, cap, r);
    OpenCountZeroIff(s.tasks);
    var i := PickNext(s.tasks);
    if i < |s.tasks| {
      var status := if s.retryCount > MAX_RETRIES then Failed else r.status;
      UpdateKeepsDistinct(s.tasks, i, status);
      OpenCountUpdate(s.tasks, i, s.tasks[i].(status := status));
      PickMoves(s.tasks, i, s.tasks[i].(status := status));
    }
  }

  /** Changing the first open step cannot open an earlier one. */
  lemma {:induction false} PickMoves(tasks: seq<Step>, i: nat, t: Step)
    requires i == PickNext(tasks) < |tasks|
    ensures PickNext(tasks[i := t]) >= i
  {
    if i > 0 {
      assert tasks[i := t][1..] == tasks[1..][i - 1 := t];
      PickMoves(tasks[1..], i - 1, t);
    }
  }

  lemma {:induction false} RunProgress(s: State, cap: nat, rs: seq<Report>)
    requires Distinct(s.tasks) && ValidReports(rs)
    ensures var t := Run(s, cap, rs);
            && Distinct(t.tasks) && |t.tasks| == |s.tasks|
            && (forall j :: 0 <= j < |s.tasks| && Settled(s.tasks[j].status) ==> t.tasks[j] == s.tasks[j])
            && PickNext(s.tasks) <= PickNext(t.tasks)
            && (cap > MAX_RETRIES ==> Budget(t) == 0 || Budget(t) + |rs| <= Budget(s))
  {
    if rs != [] {
      hide Visit, Budget;
      RunProgress(s, cap, rs[..|rs| - 1]);
      VisitProgress(Run(s, cap, rs[..|rs| - 1]), cap, rs[|rs| - 1]);
    }
  }

  lemma {:induction false} OpenCountBound(tasks: seq<Step>)
    ensures OpenCount(tasks) <= |tasks|
  {
    if tasks != [] {
      OpenCountBound(tasks[1..]);
    }
  }

  /** The next visit reports that everything is settled. */
  predicate AllComplete(s: State) {
    s.tasks != [] && PickNext(s.tasks) == |s.tasks|
  }

  lemma AllCompleteIsFinished(s: State, css: real)
    ensures AllComplete(s) <==> RunNode(Some(s.tasks), s.retryCount, css).Finished?
  {
  }

  /** With a downstream that counts past the ceiling, four visits per step settle everything. */
  lemma AllCompleteWithin(tasks: seq<Step>, cap: nat, rs: seq<Report>)
    requires tasks != [] && Distinct(tasks) && cap > MAX_RETRIES && |rs| >= 4 * |tasks| && ValidReports(rs)
    ensures var t := Run(State(tasks, 0), cap, rs);
            AllComplete(t) && forall css :: RunNode(Some(t.tasks), t.retryCount, css).Finished?
  {
    hide Visit;
    var s := State(tasks, 0);
    OpenCountBound(tasks);
    RunProgress(s, cap, rs);
    var t := Run(s, cap, rs);
    OpenCountZeroIff(t.tasks);
    forall css
      ensures RunNode(Some(t.tasks), t.retryCount, css).Finished?
    {
      AllCompleteIsFinished(t, css);
    }
  }

  /** One that stops at the ceiling or below never makes the node give up on a step that stays open. */
  lemma {:induction false} NeverGivesUp(tasks: seq<Step>, cap: nat, rs: seq<Report>)
    requires Distinct(tasks) && PickNext(tasks) < |tasks| && cap <= MAX_RETRIES && OnlyRetries(rs)
    ensures var t := Run(State(tasks, 0), cap, rs);
            && Distinct(t.tasks) && |t.tasks| == |tasks| && PickNext(t.tasks) == PickNext(tasks)
            && t.retryCount <= cap
  {
    if rs != [] {
      var init, r := rs[..|rs| - 1], rs[|rs| - 1];
      var t := Run(State(tasks, 0), cap, init);
      NeverGivesUp(tasks, cap, init);
      assert r in rs;
      VisitMovesFirstOpen(t, cap, r);
      var i := PickNext(t.tasks);
      UpdateKeepsDistinct(t.tasks, i, r.status);
      PickStays(t.tasks, i, t.tasks[i].(status := r.status));
    }
  }

  /** Every run of that many visits ends with everything settled. */
  ghost predicate Terminates(tasks: seq<Step>, cap: nat) {
    forall rs :: ValidReports(rs) && |rs| >= 4 * |tasks| ==> AllComplete(Run(State(tasks, 0), cap, rs))
  }

  /**
   Termination, exactly: a plan with an open step is always completed, within four visits per step, if
   and only if the downstream goes on counting past the ceiling.
   */
  lemma {:induction false} TerminatesIffCountsPastCeiling(tasks: seq<Step>, cap: nat)
    requires Distinct(tasks) && PickNext(tasks) < |tasks|
    ensures Terminates(tasks, cap) <==> cap > MAX_RETRIES
  {
    if cap > MAX_RETRIES {
      forall rs | ValidReports(rs) && |rs| >= 4 * |tasks|
        ensures AllComplete(Run(State(tasks, 0), cap, rs))
      {
        AllCompleteWithin(tasks, cap, rs);
      }
    } else {
      var rs := seq(4 * |tasks|, _ => Report(false, RevisionRequested, 100.0));
      NeverGivesUp(tasks, cap, rs);
      assert ValidReports(rs) && !AllComplete(Run(State(tasks, 0), cap, rs));
    }
  }

  /** Settled steps stay settled for good, however long the run. */
  lemma SettledForever(s: State, cap: nat, rs: seq<Report>, more: seq<Report>, j: nat)
    requires Distinct(s.tasks) && j < |s.tasks| && ValidReports(rs) && ValidReports(more)
    requires j < |Run(s, cap, rs).tasks| && Settled(Run(s, cap, rs).tasks[j].status)
    ensures j < |Run(Run(s, cap, rs), cap, more).tasks|
    ensures Run(Run(s, cap, rs), cap, more).tasks[j] == Run(s, cap, rs).tasks[j]
  {
    RunProgress(s, cap, rs);
    RunProgress(Run(s, cap, rs), cap, more);
  }

  /** The step the next visit dispatches or gives up on; the number of steps if there is none. */
  function Current(s: State): nat {
    PickNext(s.tasks)
  }

  /**
   Order, over a whole run: the steps are worked on from first to last and never revisited, and while
   one is worked on every earlier one is settled for good.
   */
  lemma DispatchInOrder(s: State, cap: nat, rs: seq<Report>, more: seq<Report>, j: nat)
    requires Distinct(s.tasks) && ValidReports(rs) && ValidReports(more)
    requires j < Current(Run(s, cap, rs))
    ensures var t, u := Run(s, cap, rs), Run(Run(s, cap, rs), cap, more);
            && Current(s) <= Current(t) <= Current(u) <= |s.tasks| == |t.tasks| == |u.tasks|
            && Settled(t.tasks[j].status) && u.tasks[j] == t.tasks[j]
  {
    RunProgress(s, cap, rs);
    RunProgress(Run(s, cap, rs), cap, more);
  }

  ghost predicate OnlyRetries(rs: seq<Report>) {
    forall r :: r in rs ==> !r.settles && ValidReport(r)
  }

  /**
   The ceiling: a step dispatched with the count at `s.retryCount` survives that many reports fewer
   than three; then, and no earlier, the node gives up on it and resets the count.
   */
  lemma {:induction false} GivesUpAfter(s: State, cap: nat, rs: seq<Report>)
    requires Distinct(s.tasks) && PickNext(s.tasks) < |s.tasks| && OnlyRetries(rs) && cap > MAX_RETRIES
    requires s.retryCount + |rs| <= MAX_RETRIES + 1
    ensures var i, t := PickNext(s.tasks), Run(s, cap, rs);
            && Distinct(t.tasks) && |t.tasks| == |s.tasks| && PickNext(t.tasks) == i
            && t.retryCount == s.retryCount + |rs|
            && (forall css :: RunNode(Some(t.tasks), t.retryCount, css).GaveUp? <==> s.retryCount + |rs| == MAX_RETRIES + 1)
            && (forall j :: 0 <= j < |s.tasks| && j != i ==> t.tasks[j] == s.tasks[j])
  {
    if rs != [] {
      var init, r := rs[..|rs| - 1], rs[|rs| - 1];
      var t := Run(s, cap, init);
      GivesUpAfter(s, cap, init);
      assert r in rs;
      VisitMovesFirstOpen(t, cap, r);
      var i := PickNext(t.tasks);
      UpdateKeepsDistinct(t.tasks, i, r.status);
      PickStays(t.tasks, i, t.tasks[i].(status := r.status));
    }
  }

  lemma {:induction false} PickStays(tasks: seq<Step>, i: nat, t: Step)
    requires i == PickNext(tasks) < |tasks| && !Settled(t.status)
    ensures PickNext(tasks[i := t]) == i
  {
    if i > 0 {
      assert tasks[i := t][1..] == tasks[1..][i - 1 := t];
      PickStays(tasks[1..], i - 1, t);
    }
  }

  /** A rejected step is final for the operator, yet the node dispatches it again when its turn comes. */
  lemma RejectedIsRedispatched(tasks: seq<Step>, retryCount: int, css: real, i: nat)
    requires Distinct(tasks) && i < |tasks| && tasks[i].status.Rejected? && retryCount <= MAX_RETRIES
    ensures RunNode(Some(tasks), retryCount, css).Dispatch?
            && RunNode(Some(tasks), retryCount, css).active == tasks[i]
       <==> forall j :: 0 <= j < i ==> Settled(tasks[j].status)
  {
    var p := PickNext(tasks);
    if p < i {
      assert tasks[p].number != tasks[i].number;
    }
  }

  /** If every step completes at its first report, nothing is counted and the node fails no step. */
  lemma {:induction false} NothingCountedWithoutRetry(tasks: seq<Step>, cap: nat, rs: seq<Report>)
    requires Distinct(tasks) && forall r :: r in rs ==> r.settles && r.status == Completed
    ensures var t := Run(State(tasks, 0), cap, rs);
            && t.retryCount == 0 && Distinct(t.tasks) && |t.tasks| == |tasks|
            && forall j :: 0 <= j < |tasks| && t.tasks[j].status == Failed ==> tasks[j].status == Failed
  {
    if rs != [] {
      var init, r := rs[..|rs| - 1], rs[|rs| - 1];
      assert r in rs && forall x :: x in init ==> x in rs;
      NothingCountedWithoutRetry(tasks, cap, init);
      var t := Run(State(tasks, 0), cap, init);
      hide Visit, Run, Distinct;
      RunSnoc(State(tasks, 0), cap, rs);
      VisitMovesFirstOpen(t, cap, r);
      if PickNext(t.tasks) < |t.tasks| {
        UpdateKeepsDistinct(t.tasks, PickNext(t.tasks), Completed);
      }
    }
  }

  // ---------------------------------------------------------------------
  // What one visit writes
  // ---------------------------------------------------------------------

  /** Step `i` is open and every step in front of it is completed or failed. */
  predicate IsFirstOpen(tasks: seq<Step>, i: nat) {
    && i < |tasks| && tasks[i].status !in {Completed, Failed}
    && forall j :: 0 <= j < i ==> tasks[j].status in {Completed, Failed}
  }

  lemma FirstOpenIsPicked(tasks: seq<Step>, i: nat)
    ensures IsFirstOpen(tasks, i) <==> i == PickNext(tasks) < |tasks|
  {
  }

  /**
   The node's answer to a plan, entirely: with three retries counted the first open step is failed, before
   that it is dispatched and set in progress unless it is; no other step changes. Scores below 40 raise the alert.
   */
  lemma AnswersTheFirstOpenStep(tasks: seq<Step>, retryCount: int, css: real, i: nat)
    requires Distinct(tasks) && IsFirstOpen(tasks, i)
    ensures var step, delta := tasks[i], RunNode(Some(tasks), retryCount, css);
            && (retryCount >= 3 ==> delta == GaveUp(step, tasks[i := step.(status := Failed)]))
            && (retryCount < 3 && step.status == InProgress ==> delta == Dispatch(step, None, css < 40.0))
            && (retryCount < 3 && step.status != InProgress ==>
                  delta == Dispatch(step, Some(tasks[i := step.(status := InProgress)]), css < 40.0))
  {
    hide Marked;
    FirstOpenIsPicked(tasks, i);
    MarkedIsUpdate(tasks, i, Failed);
    MarkedIsUpdate(tasks, i, InProgress);
  }

  /** Without an open step there is nothing to do: an error for no plan, the final flag for a finished one. */
  lemma AnswersWithoutOpenStep(mission: Option<seq<Step>>, retryCount: int, css: real)
    ensures RunNode(mission, retryCount, css) == Missing <==> mission == None || mission == Some([])
    ensures RunNode(mission, retryCount, css) == Finished <==>
              && mission.Some? && mission.value != []
              && forall j :: 0 <= j < |mission.value| ==> mission.value[j].status in {Completed, Failed}
  {
  }

  /** A run touches no step behind the one it is working on. */
  lemma {:induction false} LaterStepsUntouched(s: State, cap: nat, rs: seq<Report>)
    requires Distinct(s.tasks) && ValidReports(rs)
    ensures var t := Run(s, cap, rs);
            |t.tasks| == |s.tasks| && forall j :: PickNext(t.tasks) < j < |s.tasks| ==> t.tasks[j] == s.tasks[j]
  {
    RunProgress(s, cap, rs);
    if rs != [] {
      var init, r := rs[..|rs| - 1], rs[|rs| - 1];
      var t := Run(s, cap, init);
      assert ValidReports(init) && ValidReport(r);
      hide Visit, PickNext, Run, Budget;
      LaterStepsUntouched(s, cap, init);
      RunProgress(s, cap, init);
      VisitProgress(t, cap, r);
      VisitMovesFirstOpen(t, cap, r);
      RunSnoc(s, cap, rs);
    }
  }

  lemma RunSnoc(s: State, cap: nat, rs: seq<Report>)
    requires rs != []
    ensures Run(s, cap, rs) == Visit(Run(s, cap, rs[..|rs| - 1]), cap, rs[|rs| - 1])
  {
    hide Visit;
  }

  /**
   One step at a time: over a whole run of a plan that starts without a step in progress, whenever the node
   dispatches, the step it names is in progress and no other one is.
   */
  lemma SoleStepInProgress(s: State, cap: nat, rs: seq<Report>, css: real, j: nat)
    requires Distinct(s.tasks) && ValidReports(rs) && j < |s.tasks|
    requires forall k :: 0 <= k < |s.tasks| ==> s.tasks[k].status != InProgress
    ensures var t := Run(s, cap, rs);
            var delta := RunNode(Some(t.tasks), t.retryCount, css);
            |t.tasks| == |s.tasks| && (delta.Dispatch? ==>
              var after := if delta.update.Some? then delta.update.value else t.tasks;
              |after| == |s.tasks| && (after[j].status == InProgress <==> after[j].number == delta.active.number))
  {
    RunProgress(s, cap, rs);
    LaterStepsUntouched(s, cap, rs);
    var t := Run(s, cap, rs);
    hide Run, PickNext;
    var i := PickNext(t.tasks);
    if i < |t.tasks| {
      FirstOpenIsPicked(t.tasks, i);
      AnswersTheFirstOpenStep(t.tasks, t.retryCount, css, i);
      assert j != i ==> t.tasks[j].number != t.tasks[i].number;
      assert j < i ==> Settled(t.tasks[j].status);
    } else {
      FinishedWhenNoneOpen(t, css);
    }
  }

  lemma FinishedWhenNoneOpen(s: State, css: real)
    requires PickNext(s.tasks) == |s.tasks|
    ensures !RunNode(Some(s.tasks), s.retryCount, css).Dispatch?
  {
  }
}
