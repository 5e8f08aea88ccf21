/**
 The Socratic interview: a graph node that alternates between generating a batch of questions
 and asking it, under an engine that replays the node from the top when the operator answers.

 The batch is committed to the state before it is asked, so the replay asks what was generated
 before and folds the answers against exactly that batch.

 A session is one thread of such interviews, one a turn. The seed of a new turn leaves the round
 count, the axes and a pending batch as the last turn left them.
 */
module Interview {
  import opened Prelude
  import opened Text

  const MAX_ROUNDS: nat := 3

  datatype Question = Question(id: string, header: string, question: string)

  datatype Answer = Answer(id: string, labels: seq<string>, freeText: string)

  datatype Role = Assistant | User

  datatype Message = Message(role: Role, content: string)

  type Batch = seq<Question>

  /** The channels of the graph state the node reads and writes; an empty batch is no batch. */
  datatype State = State(
    messages: seq<Message>,
    round: nat,
    pending: Batch,
    hitlPending: bool,
    understood: bool,
    axes: seq<string>,
    userInput: string)

  /** What the model would produce if it were called now: arbitrary, and different on every call. */
  datatype Generation = Generation(batch: Option<Batch>, axes: seq<string>, notice: string)

  // ---------------------------------------------------------------------
  // The node
  // ---------------------------------------------------------------------

  function JoinWith(sep: string, parts: seq<string>): string {
    if parts == [] then "" else if |parts| == 1 then parts[0] else parts[0] + sep + JoinWith(sep, parts[1..])
  }

  function Rendered(batch: Batch): string {
    JoinWith("\n", seq(|batch|, i requires 0 <= i < |batch| => "- " + batch[i].header + ": " + batch[i].question))
  }

  /** The header of the question with this id, or the id itself if there is none; the last one wins. */
  function HeaderOf(batch: Batch, id: string): string {
    if batch == [] then id
    else if batch[|batch| - 1].id == id then batch[|batch| - 1].header
    else HeaderOf(batch[..|batch| - 1], id)
  }

  function AnswerText(a: Answer): string {
    var picked := JoinWith(", ", a.labels);
    if picked != "" then picked else if a.freeText != "" then a.freeText else "(no answer)"
  }

  function Folded(batch: Batch, answers: seq<Answer>): string {
    var text := JoinWith("; ", seq(|answers|, i requires 0 <= i < |answers| =>
      HeaderOf(batch, answers[i].id) + ": " + AnswerText(answers[i])));
    if text != "" then text else "(the operator gave no answer)"
  }

  predicate HasPrior(messages: seq<Message>) {
    exists i :: 0 <= i < |messages| && messages[i].role == Assistant
  }

  datatype Result = Suspended(shown: Batch) | Returned(state: State, generated: bool)

  /** Record the axes the round named, if it named any. */
  function WithAxes(s: State, axes: seq<string>): State {
    if axes == [] then s else s.(axes := axes)
  }

  /** One execution of the node from the top; `resume` carries the operator's answers on a replay. */
  function RunNode(s: State, resume: Option<seq<Answer>>, gen: Generation, agrees: string -> bool): Result {
    if s.pending != [] then
      match resume
      case None => Suspended(s.pending)
      case Some(answers) =>
        Returned(s.(hitlPending := false, understood := false, pending := [],
                    messages := s.messages + [Message(Assistant, Rendered(s.pending)),
                                              Message(User, Folded(s.pending, answers))]), false)
    else
      var prior := HasPrior(s.messages);
      var input := if s.userInput != "" then [Message(User, s.userInput)] else [];
      if s.round == 0 && prior && agrees(s.userInput) then
        Returned(s.(understood := true, hitlPending := false, messages := s.messages + input), false)
      else
        var extra := if s.round == 0 && prior then input else [];
        if s.round >= MAX_ROUNDS then
          Returned(s.(understood := true, hitlPending := false, messages := s.messages + extra), false)
        else
          var next := WithAxes(s.(round := s.round + 1), gen.axes);
          Returned(
            match gen.batch
            case None => next.(hitlPending := true, understood := false,
                               messages := s.messages + extra + [Message(Assistant, gen.notice)])
            case Some(batch) =>
              if batch == [] then next.(hitlPending := false, understood := true, messages := s.messages + extra)
              else next.(hitlPending := false, understood := false, messages := s.messages + extra, pending := batch),
            true)
  }

  // ---------------------------------------------------------------------
  // The edge after it
  // ---------------------------------------------------------------------

  function LowerChar(c: char): char {
    if 'A' <= c <= 'Z' then c + 32 as char else c
  }

  function Lower(s: string): string {
    seq(|s|, i requires 0 <= i < |s| => LowerChar(s[i]))
  }

  predicate IsSettledAxis(axis: string) {
    Lower(Strip(axis)) in {"none", "nothing", "n/a", "-"}
  }

  /** The analyst named axes and reports none of them open. */
  predicate CoverageSettled(axes: seq<string>) {
    axes != [] && forall i :: 0 <= i < |axes| ==> IsSettledAxis(axes[i])
  }

  datatype Phase = Ready | Waiting(shown: Batch) | Synthesis | End

  function RouteAfter(s: State): Phase {
    if s.hitlPending then End
    else if s.understood || CoverageSettled(s.axes) then Synthesis
    else Ready
  }

  // ---------------------------------------------------------------------
  // Sessions: turns, each an interview under replay from the top
  // ---------------------------------------------------------------------

  datatype Record =
    | Turn(rolledBack: bool)
    | Committed(batch: Batch)
    | Shown(batch: Batch)
    | Answered(batch: Batch, answers: seq<Answer>)

  /** `entry` is the state the current turn began with; `steps` and `generations` count within the turn. */
  datatype Graph = Graph(state: State, entry: State, phase: Phase, steps: nat, generations: nat, log: seq<Record>)

  /**
   A new turn seeds the thread: what the seed does not name keeps its checkpointed value, and the history
   may have been compressed. Of a turn abandoned before its end, `keeps` tells whether what its interview
   had done so far is in the checkpoint.
   */
  datatype Event =
    | Enter(gen: Generation)
    | Resume(answers: seq<Answer>, gen: Generation)
    | NewTurn(userInput: string, history: Option<seq<Message>>, keeps: bool)

  /** Apply what one execution of the node produced. */
  function Completed(g: Graph, r: Result, entries: seq<Record>): Graph
    requires r.Returned?
  {
    Graph(r.state, g.entry, RouteAfter(r.state), g.steps + 1, g.generations + (if r.generated then 1 else 0),
          g.log + entries + if g.state.pending == [] && r.state.pending != [] then [Committed(r.state.pending)] else [])
  }

  predicate IsOver(p: Phase) {
    p == Synthesis || p == End
  }

  /** The state a new turn starts from: its seed leaves round count, axes and pending batch alone. */
  function Seeded(g: Graph, userInput: string, history: Option<seq<Message>>, keeps: bool): State {
    var base := if IsOver(g.phase) || keeps then g.state else g.entry;
    base.(hitlPending := false, understood := false, userInput := userInput,
          messages := if history.Some? then history.value else base.messages)
  }

  /** A suspension keeps the state; a resume runs the node again, from the top, in the same state. */
  function Next(g: Graph, e: Event, agrees: string -> bool): Graph {
    match e
    case Enter(gen) =>
      if g.phase != Ready then g
      else
        (match RunNode(g.state, None, gen, agrees)
         case Suspended(shown) => g.(phase := Waiting(shown), log := g.log + [Shown(shown)])
         case Returned(s, made) => Completed(g, Returned(s, made), []))
    case Resume(answers, gen) =>
      if !g.phase.Waiting? then g
      else
        (match RunNode(g.state, Some(answers), gen, agrees)
         case Suspended(_) => g
         case Returned(s, made) => Completed(g, Returned(s, made), [Answered(g.state.pending, answers)]))
    case NewTurn(userInput, history, keeps) =>
      var s := Seeded(g, userInput, history, keeps);
      Graph(s, s, Ready, 0, 0, g.log + [Turn(!IsOver(g.phase) && !keeps)])
  }

  function Run(g: Graph, es: seq<Event>, agrees: string -> bool): Graph {
    if es == [] then g else Next(Run(g, es[..|es| - 1], agrees), es[|es| - 1], agrees)
  }

  /** A session that starts afresh. */
  predicate Starts(g: Graph) {
    g.phase == Ready && g.state.round == 0 && g.state.pending == [] && g.entry == g.state
    && g.steps == 0 && g.generations == 0 && g.log == []
  }

  // ---------------------------------------------------------------------
  // What every session keeps
  // ---------------------------------------------------------------------

  predicate ClosesBatch(r: Record) {
    r.Committed? || r.Answered?
  }

  ghost predicate RolledBack(log: seq<Record>, from: nat, to: nat)
    requires to <= |log|
  {
    exists j :: from < j < to && log[j] == Turn(true)
  }

  /** The batch is the last one committed before `to` and not answered since, but for a turn rolled back since. */
  ghost predicate Outstanding(log: seq<Record>, to: nat, batch: Batch)
    requires to <= |log|
  {
    exists c :: 0 <= c < to && log[c] == Committed(batch)
                && ((forall j :: c < j < to ==> !ClosesBatch(log[j])) || RolledBack(log, c, to))
  }

  /** What is shown is outstanding, and what is answered has just been shown. */
  ghost predicate InOrder(log: seq<Record>, i: nat)
    requires i < |log|
  {
    && (log[i].Shown? ==> Outstanding(log, i, log[i].batch))
    && (log[i].Answered? ==> i >= 1 && log[i - 1] == Shown(log[i].batch))
  }

  ghost predicate LogInOrder(log: seq<Record>) {
    forall i :: 0 <= i < |log| ==> InOrder(log, i)
  }

  /** Some round committed the batch. */
  predicate Known(log: seq<Record>, batch: Batch) {
    Committed(batch) in log
  }

  function Measure(s: State): int {
    2 * (MAX_ROUNDS - s.round) + if s.pending != [] then 1 else 0
  }

  predicate Bounded(s: State) {
    s.round <= MAX_ROUNDS && (s.pending != [] ==> s.round >= 1)
  }

  ghost predicate Inv(g: Graph) {
    && LogInOrder(g.log)
    && Bounded(g.state) && Bounded(g.entry)
    && g.generations == g.state.round - g.entry.round
    && (g.state.pending != [] ==> Outstanding(g.log, |g.log|, g.state.pending))
    && (g.entry.pending != [] ==> Known(g.log, g.entry.pending))
    && (g.phase.Waiting? ==>
          g.phase.shown == g.state.pending != [] && g.log != [] && g.log[|g.log| - 1] == Shown(g.state.pending))
    && (!IsOver(g.phase) ==> g.steps + Measure(g.state) <= Measure(g.entry))
    && g.steps <= Measure(g.entry) + 1
  }

  /** A record that closes no batch leaves an outstanding one outstanding. */
  lemma OutstandingStays(log: seq<Record>, r: Record, batch: Batch)
    requires Outstanding(log, |log|, batch) && !ClosesBatch(r)
    ensures Outstanding(log + [r], |log| + 1, batch)
  {
    var t := log + [r];
    var c :| 0 <= c < |log| && log[c] == Committed(batch)
             && ((forall j :: c < j < |log| ==> !ClosesBatch(log[j])) || RolledBack(log, c, |log|));
    assert t[c] == Committed(batch);
    if RolledBack(log, c, |log|) {
      var j :| c < j < |log| && log[j] == Turn(true);
      assert t[j] == Turn(true);
    }
  }

  lemma OutstandingPrefix(log: seq<Record>, r: Record, to: nat, batch: Batch)
    requires to <= |log| && Outstanding(log, to, batch)
    ensures Outstanding(log + [r], to, batch)
  {
    var t := log + [r];
    var c :| 0 <= c < to && log[c] == Committed(batch)
             && ((forall j :: c < j < to ==> !ClosesBatch(log[j])) || RolledBack(log, c, to));
    assert t[c] == Committed(batch);
    if RolledBack(log, c, to) {
      var j :| c < j < to && log[j] == Turn(true);
      assert t[j] == Turn(true);
    }
  }

  lemma JustCommitted(log: seq<Record>, batch: Batch)
    ensures Outstanding(log + [Committed(batch)], |log| + 1, batch)
  {
    assert (log + [Committed(batch)])[|log|] == Committed(batch);
  }

  /** After a rollback every batch once committed counts as outstanding. */
  lemma RolledBackOutstanding(log: seq<Record>, batch: Batch)
    requires Known(log, batch)
    ensures Outstanding(log + [Turn(true)], |log| + 1, batch)
  {
    var t := log + [Turn(true)];
    var c :| 0 <= c < |log| && log[c] == Committed(batch);
    assert t[c] == Committed(batch) && t[|log|] == Turn(true);
  }

  lemma OutstandingIsKnown(log: seq<Record>, batch: Batch)
    requires Outstanding(log, |log|, batch)
    ensures Known(log, batch)
  {
  }

  lemma LogAppend(log: seq<Record>, r: Record)
    requires LogInOrder(log)
    requires r.Shown? ==> Outstanding(log, |log|, r.batch)
    requires r.Answered? ==> log != [] && log[|log| - 1] == Shown(r.batch)
    ensures LogInOrder(log + [r])
  {
    hide Outstanding;
    var t := log + [r];
    forall i | 0 <= i < |t|
      ensures InOrder(t, i)
    {
      if i < |log| {
        assert InOrder(log, i);
        if log[i].Shown? {
          OutstandingPrefix(log, r, i, log[i].batch);
        }
      } else if r.Shown? {
        OutstandingPrefix(log, r, i, r.batch);
      }
    }
  }

  lemma EnterKeeps(g: Graph, gen: Generation, agrees: string -> bool)
    requires Inv(g)
    ensures Inv(Next(g, Enter(gen), agrees))
  {
    hide CoverageSettled, Rendered, Folded, HasPrior, Outstanding, LogInOrder, Known;
    var t := Next(g, Enter(gen), agrees);
    assert g.log + [] + [] == g.log;
    if t.log != g.log {
      var r := t.log[|g.log|];
      assert t.log == g.log + [r];
      LogAppend(g.log, r);
      if r.Shown? {
        OutstandingStays(g.log, r, g.state.pending);
      } else {
        JustCommitted(g.log, r.batch);
      }
      KnownStays(g.log, r, g.entry.pending);
    }
  }

  lemma KnownStays(log: seq<Record>, r: Record, batch: Batch)
    requires Known(log, batch) || batch == []
    ensures Known(log + [r], batch) || batch == []
  {
  }

  lemma ResumeKeeps(g: Graph, answers: seq<Answer>, gen: Generation, agrees: string -> bool)
    requires Inv(g)
    ensures Inv(Next(g, Resume(answers, gen), agrees))
  {
    hide CoverageSettled, Rendered, Folded, HasPrior, Outstanding, LogInOrder, Known;
    var t := Next(g, Resume(answers, gen), agrees);
    if t != g {
      var r := Answered(g.state.pending, answers);
      assert g.log + [r] + [] == g.log + [r];
      LogAppend(g.log, r);
      KnownStays(g.log, r, g.entry.pending);
    }
  }

  lemma NewTurnKeeps(g: Graph, e: Event, agrees: string -> bool)
    requires Inv(g) && e.NewTurn?
    ensures Inv(Next(g, e, agrees))
  {
    hide CoverageSettled, Rendered, Folded, HasPrior, Outstanding, LogInOrder, Known;
    var t := Next(g, e, agrees);
    var r := t.log[|g.log|];
    LogAppend(g.log, r);
    if t.state.pending != [] {
      if r == Turn(true) {
        RolledBackOutstanding(g.log, t.state.pending);
      } else {
        OutstandingStays(g.log, r, t.state.pending);
      }
      OutstandingIsKnown(t.log, t.state.pending);
    }
  }

  lemma {:induction false} RunKeeps(g: Graph, es: seq<Event>, agrees: string -> bool)
    requires Inv(g)
    ensures Inv(Run(g, es, agrees))
  {
    hide Next, Inv;
    if es != [] {
      var t := Run(g, es[..|es| - 1], agrees);
      RunKeeps(g, es[..|es| - 1], agrees);
      match es[|es| - 1]
      case Enter(gen) => EnterKeeps(t, gen, agrees);
      case Resume(answers, gen) => ResumeKeeps(t, answers, gen, agrees);
      case NewTurn(_, _, _) => NewTurnKeeps(t, es[|es| - 1], agrees);
    }
  }

  lemma StartKeeps(g: Graph)
    requires Starts(g)
    ensures Inv(g)
  {
  }

  /**
   Over a whole session, whatever the model would generate on a replay: an answer is folded against the
   very batch just shown, what is shown is the batch committed last and not yet answered, and an
   interview completes at most seven node steps.
   */
  lemma AnswersMeetTheirBatch(g: Graph, es: seq<Event>, agrees: string -> bool)
    requires Starts(g)
    ensures LogInOrder(Run(g, es, agrees).log) && Run(g, es, agrees).steps <= 7
  {
    StartKeeps(g);
    RunKeeps(g, es, agrees);
  }

  /** A resume never generates: its result does not depend on what the model would say now. */
  lemma {:induction false} ResumeNeverGenerates(g: Graph, es: seq<Event>, agrees: string -> bool,
                             answers: seq<Answer>, gen: Generation, other: Generation)
    requires Starts(g)
    ensures var t := Run(g, es, agrees);
            && Next(t, Resume(answers, gen), agrees) == Next(t, Resume(answers, other), agrees)
            && Next(t, Resume(answers, gen), agrees).generations == t.generations
            && (t.phase.Waiting? ==> Next(t, Resume(answers, gen), agrees).steps == t.steps + 1)
  {
    StartKeeps(g);
    RunKeeps(g, es, agrees);
    hide CoverageSettled, Rendered, Folded, HasPrior, Run, Outstanding, LogInOrder, Known;
  }

  // ---------------------------------------------------------------------
  // One turn
  // ---------------------------------------------------------------------

  /** An event the engine would deliver in this phase of an interview. */
  predicate Fits(g: Graph, e: Event) {
    (g.phase == Ready && e.Enter?) || (g.phase.Waiting? && e.Resume?)
  }

  ghost predicate AllFit(g: Graph, es: seq<Event>, agrees: string -> bool) {
    forall i :: 0 <= i < |es| ==> Fits(Run(g, es[..i], agrees), es[i])
  }

  /** Deliveries left before the interview ends: two per pending batch, three per round not yet begun. */
  function Deliveries(g: Graph): int {
    if IsOver(g.phase) then 0
    else 3 * (MAX_ROUNDS - g.state.round) + 1
         + if g.phase.Waiting? then 1 else if g.state.pending != [] then 2 else 0
  }

  lemma DeliveryProgress(g: Graph, e: Event, agrees: string -> bool)
    requires Inv(g) && Fits(g, e)
    ensures 0 <= Deliveries(Next(g, e, agrees)) < Deliveries(g) <= 10
  {
    hide CoverageSettled, Rendered, Folded, HasPrior, LogInOrder, Outstanding, Known;
  }

  /** Every interview comes to an end, wherever in a session it starts: at most ten deliveries fit. */
  lemma {:induction false} InterviewEnds(g: Graph, es: seq<Event>, agrees: string -> bool)
    requires Inv(g) && AllFit(g, es, agrees)
    ensures |es| + Deliveries(Run(g, es, agrees)) <= Deliveries(g) <= 10
  {
    hide Next, Fits;
    if es == [] {
      AtMostTen(g);
    } else {
      var n := |es| - 1;
      forall i | 0 <= i < n
        ensures Fits(Run(g, es[..n][..i], agrees), es[..n][i])
      {
        assert es[..n][..i] == es[..i];
        assert Fits(Run(g, es[..i], agrees), es[i]);
      }
      InterviewEnds(g, es[..n], agrees);
      RunKeeps(g, es[..n], agrees);
      assert Fits(Run(g, es[..n], agrees), es[n]);
      DeliveryProgress(Run(g, es[..n], agrees), es[n], agrees);
    }
  }

  lemma AtMostTen(g: Graph)
    requires Inv(g)
    ensures Deliveries(g) <= 10
  {
  }

  /** The events of one turn. */
  ghost predicate WithinTurn(es: seq<Event>) {
    forall e :: e in es ==> !e.NewTurn?
  }

  ghost predicate HasEnter(es: seq<Event>) {
    exists e :: e in es && e.Enter?
  }

  /** Something like `r` was recorded between the two graphs. */
  ghost predicate Recorded(g: Graph, t: Graph, r: Record)
    requires |g.log| <= |t.log|
  {
    exists i :: |g.log| <= i < |t.log| && t.log[i] == r
  }

  lemma {:induction false} LogGrows(g: Graph, es: seq<Event>, agrees: string -> bool)
    ensures g.log <= Run(g, es, agrees).log
  {
    hide RunNode;
    if es != [] {
      LogGrows(g, es[..|es| - 1], agrees);
    }
  }

  lemma LogGrowsOnce(g: Graph, e: Event, agrees: string -> bool)
    ensures g.log <= Next(g, e, agrees).log
  {
    hide RunNode;
  }

  /** An interview that is over stays so until the next turn. */
  lemma {:induction false} OverIsFinal(g: Graph, es: seq<Event>, agrees: string -> bool)
    requires IsOver(g.phase) && WithinTurn(es)
    ensures Run(g, es, agrees) == g
  {
    if es != [] {
      assert es[|es| - 1] in es && forall e :: e in es[..|es| - 1] ==> e in es;
      OverIsFinal(g, es[..|es| - 1], agrees);
    }
  }

  /** A batch waiting to be asked is asked by the next delivery. */
  lemma {:induction false} PendingIsShown(g: Graph, es: seq<Event>, agrees: string -> bool)
    requires g.phase == Ready && g.state.pending != [] && WithinTurn(es)
    ensures |g.log| <= |Run(g, es, agrees).log|
    ensures Recorded(g, Run(g, es, agrees), Shown(g.state.pending)) <==> HasEnter(es)
    ensures !HasEnter(es) ==> Run(g, es, agrees) == g
  {
    if es != [] {
      var init, e := es[..|es| - 1], es[|es| - 1];
      assert e in es && forall x :: x in init ==> x in es;
      assert forall x :: x in es ==> x in init || x == e;
      PendingIsShown(g, init, agrees);
      var t := Run(g, init, agrees);
      LogGrowsOnce(t, e, agrees);
      if HasEnter(init) {
        var i :| |g.log| <= i < |t.log| && t.log[i] == Shown(g.state.pending);
        assert Run(g, es, agrees).log[i] == Shown(g.state.pending);
      } else if e.Enter? {
        assert Run(g, es, agrees).log[|g.log|] == Shown(g.state.pending);
      }
    }
  }

  /** The node commits a batch when it is entered with this generation. */
  predicate Commits(g: Graph, gen: Generation, agrees: string -> bool) {
    g.phase == Ready && g.state.pending == [] && Next(g, Enter(gen), agrees).state.pending != []
  }

  lemma RouteAfterCommit(g: Graph, gen: Generation, agrees: string -> bool)
    requires Commits(g, gen, agrees)
    ensures var t := Next(g, Enter(gen), agrees);
            t.phase == if CoverageSettled(t.state.axes) then Synthesis else Ready
  {
    hide CoverageSettled, Rendered, Folded, HasPrior;
  }

  /**
   However the turn goes on, a committed batch is asked in it if and only if the axes on record are not
   all settled and the node is entered again.
   */
  lemma CommittedIsAskedIff(g: Graph, gen: Generation, es: seq<Event>, agrees: string -> bool)
    requires Commits(g, gen, agrees) && WithinTurn(es)
    ensures var t := Next(g, Enter(gen), agrees);
            && |t.log| <= |Run(t, es, agrees).log|
            && (Recorded(t, Run(t, es, agrees), Shown(t.state.pending))
                <==> !CoverageSettled(t.state.axes) && HasEnter(es))
  {
    hide Next, CoverageSettled;
    RouteAfterCommit(g, gen, agrees);
    var t := Next(g, Enter(gen), agrees);
    if CoverageSettled(t.state.axes) {
      OverIsFinal(t, es, agrees);
    } else {
      PendingIsShown(t, es, agrees);
    }
  }

  // ---------------------------------------------------------------------
  // From one turn to the next
  // ---------------------------------------------------------------------

  /** A batch left pending when an interview is over is what the next turn asks first, whatever its request. */
  lemma LeftoverIsShownFirst(g: Graph, turn: Event, gen: Generation, agrees: string -> bool)
    requires IsOver(g.phase) && g.state.pending != [] && turn.NewTurn?
    ensures var t := Next(Next(g, turn, agrees), Enter(gen), agrees);
            && t.phase == Waiting(g.state.pending) && t.state.userInput == turn.userInput
            && t.log == g.log + [Turn(false), Shown(g.state.pending)]
  {
    assert g.log + [Turn(false)] + [Shown(g.state.pending)] == g.log + [Turn(false), Shown(g.state.pending)];
  }

  /** The turn cannot ask anything of its own, whatever the model would say. */
  predicate Barren(s: State, agrees: string -> bool) {
    || s.round >= 3
    || (s.pending != [] && CoverageSettled(s.axes))
    || (s.pending == [] && s.round == 0 && HasPrior(s.messages) && agrees(s.userInput))
  }

  ghost predicate NothingCommitted(g: Graph, t: Graph) {
    |g.log| <= |t.log| && forall i :: |g.log| <= i < |t.log| ==> !t.log[i].Committed?
  }

  /** While nothing can be asked, nothing is committed, and it stays so until the interview is over. */
  lemma BarrenStep(g: Graph, e: Event, agrees: string -> bool)
    requires Barren(g.state, agrees) && !IsOver(g.phase) && !e.NewTurn?
    requires g.phase.Waiting? ==> g.state.pending != []
    ensures var t := Next(g, e, agrees);
            && NothingCommitted(g, t)
            && (IsOver(t.phase) || (Barren(t.state, agrees) && (t.phase.Waiting? ==> t.state.pending != [])))
  {
    hide CoverageSettled, Rendered, Folded, HasPrior;
  }

  lemma {:induction false} BarrenTurn(g: Graph, es: seq<Event>, agrees: string -> bool)
    requires g.phase == Ready && Barren(g.state, agrees) && WithinTurn(es)
    ensures var t := Run(g, es, agrees);
            && NothingCommitted(g, t)
            && (IsOver(t.phase) || (Barren(t.state, agrees) && (t.phase.Waiting? ==> t.state.pending != [])))
  {
    hide Barren, Next;
    if es != [] {
      var init, e := es[..|es| - 1], es[|es| - 1];
      assert e in es && forall x :: x in init ==> x in es;
      BarrenTurn(g, init, agrees);
      var t := Run(g, init, agrees);
      if IsOver(t.phase) {
        assert WithinTurn([e]);
        OverIsFinal(t, [e], agrees);
        RunOne(t, e, agrees);
      } else {
        BarrenStep(t, e, agrees);
        LogGrowsOnce(t, e, agrees);
        NothingCommittedTwice(g, t, Next(t, e, agrees));
      }
    }
  }

  lemma RunOne(g: Graph, e: Event, agrees: string -> bool)
    ensures Run(g, [e], agrees) == Next(g, e, agrees)
  {
    hide Next;
    assert [e][..0] == [];
  }

  lemma NothingCommittedTwice(g: Graph, t: Graph, u: Graph)
    requires NothingCommitted(g, t) && NothingCommitted(t, u) && t.log <= u.log
    ensures NothingCommitted(g, u)
  {
    assert forall i :: 0 <= i < |t.log| ==> u.log[i] == t.log[i];
  }

  /** Some course of the turn commits a batch and then asks it. */
  ghost predicate MayAsk(g: Graph, agrees: string -> bool) {
    exists es: seq<Event>, batch: Batch :: AsksOwn(g, es, batch, agrees)
  }

  ghost predicate AsksOwn(g: Graph, es: seq<Event>, batch: Batch, agrees: string -> bool) {
    var t := Run(g, es, agrees);
    WithinTurn(es) && exists c, i :: |g.log| <= c < i < |t.log| && t.log[c] == Committed(batch) && t.log[i] == Shown(batch)
  }

  /** A model that asks one question about one open axis. */
  const Curious: Generation := Generation(Some([Question("q0", "Scope", "What is in scope?")]), ["open"], "")

  lemma OpenIsUnsettled()
    ensures !CoverageSettled(["open"])
  {
    assert !IsSpace("open"[0]) && !IsSpace("open"[3]);
    hide IsSpace, Strip, Lower;
    StripFixed("open");
    LowerOpen();
    assert !IsSettledAxis(["open"][0]);
  }

  lemma LowerOpen()
    ensures Lower("open") == "open"
  {
  }

  /** With nothing pending, a curious model gets its batch committed and, entered again, asked. */
  lemma CuriousAsks(g: Graph, agrees: string -> bool)
    requires g.phase == Ready && g.state.pending == [] && !Barren(g.state, agrees)
    ensures var batch := Curious.batch.value;
            var t := Next(g, Enter(Curious), agrees);
            && t.log == g.log + [Committed(batch)]
            && Next(t, Enter(Curious), agrees).log == g.log + [Committed(batch), Shown(batch)]
  {
    OpenIsUnsettled();
    hide CoverageSettled, Rendered, Folded, HasPrior;
    var batch := Curious.batch.value;
    assert g.log + [] + [Committed(batch)] == g.log + [Committed(batch)];
    assert g.log + [Committed(batch)] + [Shown(batch)] == g.log + [Committed(batch), Shown(batch)];
  }

  /** Answering a leftover batch with axes still open leads to a round of the turn's own. */
  lemma LeftoverAnswered(g: Graph, agrees: string -> bool)
    requires g.phase == Ready && g.state.pending != [] && g.state.round >= 1 && !Barren(g.state, agrees)
    ensures var t := Next(Next(g, Enter(Curious), agrees), Resume([], Curious), agrees);
            t.phase == Ready && t.state.pending == [] && !Barren(t.state, agrees) && |g.log| <= |t.log|
  {
    hide CoverageSettled, Rendered, Folded, HasPrior;
  }

  lemma RunTwo(g: Graph, e1: Event, e2: Event, agrees: string -> bool)
    ensures Run(g, [e1, e2], agrees) == Next(Next(g, e1, agrees), e2, agrees)
  {
    hide Next;
    assert [e1, e2][..1] == [e1];
    RunOne(g, e1, agrees);
  }

  lemma RunFour(g: Graph, e1: Event, e2: Event, e3: Event, e4: Event, agrees: string -> bool)
    ensures Run(g, [e1, e2, e3, e4], agrees)
         == Next(Next(Next(Next(g, e1, agrees), e2, agrees), e3, agrees), e4, agrees)
  {
    hide Next;
    assert [e1, e2, e3, e4][..3] == [e1, e2, e3] && [e1, e2, e3][..2] == [e1, e2];
    RunTwo(g, e1, e2, agrees);
  }

  lemma OwnAsked(g: Graph, t: Graph, es: seq<Event>, batch: Batch, agrees: string -> bool)
    requires WithinTurn(es) && |g.log| <= |t.log|
    requires Run(g, es, agrees).log == t.log + [Committed(batch), Shown(batch)]
    ensures MayAsk(g, agrees)
  {
    var log := Run(g, es, agrees).log;
    assert log[|t.log|] == Committed(batch) && log[|t.log| + 1] == Shown(batch);
    assert AsksOwn(g, es, batch, agrees);
  }

  /**
   A turn can ask a question of its own if and only if rounds are left and, with a batch left over from
   the turn before, its axes are not all settled, and else the request does not just agree with a
   dialogue before the first round.
   */
  lemma MayAskIffNotBarren(g: Graph, agrees: string -> bool)
    requires Inv(g) && g.phase == Ready
    ensures MayAsk(g, agrees) <==> !Barren(g.state, agrees)
  {
    if Barren(g.state, agrees) {
      forall es: seq<Event>, batch: Batch
        ensures !AsksOwn(g, es, batch, agrees)
      {
        if WithinTurn(es) {
          BarrenTurn(g, es, agrees);
        }
      }
    } else {
      CuriousTurnAsks(g, agrees);
    }
  }

  lemma CuriousTurnAsks(g: Graph, agrees: string -> bool)
    requires Inv(g) && g.phase == Ready && !Barren(g.state, agrees)
    ensures MayAsk(g, agrees)
  {
    var batch := Curious.batch.value;
    var again := Enter(Curious);
    if g.state.pending == [] {
      hide Next, Barren, Inv;
      CuriousAsks(g, agrees);
      RunTwo(g, again, again, agrees);
      OwnAsked(g, g, [again, again], batch, agrees);
    } else {
      LeftoverAnswered(g, agrees);
      hide Next, Barren, Inv;
      var t := Next(Next(g, again, agrees), Resume([], Curious), agrees);
      CuriousAsks(t, agrees);
      RunFour(g, again, Resume([], Curious), again, again, agrees);
      OwnAsked(g, t, [again, Resume([], Curious), again, again], batch, agrees);
    }
  }

  /** The session has used up its rounds, and so had the turn it is in, if that is not over. */
  predicate Spent(g: Graph) {
    g.state.round >= 3 && (IsOver(g.phase) || g.entry.round >= 3)
  }

  lemma SpentStep(g: Graph, e: Event, agrees: string -> bool)
    requires Inv(g) && Spent(g)
    ensures Spent(Next(g, e, agrees)) && NothingCommitted(g, Next(g, e, agrees))
  {
    hide CoverageSettled, Rendered, Folded, HasPrior, LogInOrder, Outstanding, Known;
  }

  /** The round count is never reset: once an interview has used its rounds, no later turn composes a question. */
  lemma {:induction false} SpentForGood(g: Graph, es: seq<Event>, agrees: string -> bool)
    requires Inv(g) && Spent(g)
    ensures Spent(Run(g, es, agrees)) && NothingCommitted(g, Run(g, es, agrees))
  {
    hide Inv, Spent, Next;
    if es != [] {
      var t := Run(g, es[..|es| - 1], agrees);
      SpentForGood(g, es[..|es| - 1], agrees);
      RunKeeps(g, es[..|es| - 1], agrees);
      SpentStep(t, es[|es| - 1], agrees);
      LogGrowsOnce(t, es[|es| - 1], agrees);
      NothingCommittedTwice(g, t, Next(t, es[|es| - 1], agrees));
    }
  }

  lemma NoneIsSettled()
    ensures CoverageSettled(["none"])
  {
    assert !IsSpace("none"[0]) && !IsSpace("none"[3]);
    hide IsSpace, Strip, Lower;
    StripFixed("none");
    LowerNone();
  }

  lemma LowerNone()
    ensures Lower("none") == "none"
  {
  }

  /**
   The first round commits a batch and reports its axes as "none": however the interview goes on, the
   batch is not asked in it, and the next turn asks it first, under its own request.
   */
  lemma SettledBatchIsAskedNextTurn(g: Graph, batch: Batch, es: seq<Event>, turn: Event, gen: Generation,
                                    agrees: string -> bool)
    requires Starts(g) && g.state.messages == [] && batch != [] && WithinTurn(es) && turn.NewTurn?
    ensures var t := Run(Next(g, Enter(Generation(Some(batch), ["none"], "")), agrees), es, agrees);
            && t.phase == Synthesis && t.state.pending == batch && t.log == [Committed(batch)]
            && Next(Next(t, turn, agrees), Enter(gen), agrees).phase == Waiting(batch)
            && Next(Next(t, turn, agrees), Enter(gen), agrees).log == [Committed(batch), Turn(false), Shown(batch)]
  {
    NoneIsSettled();
    hide CoverageSettled, Rendered, Folded;
    var t := Next(g, Enter(Generation(Some(batch), ["none"], "")), agrees);
    assert g.log + [] + [Committed(batch)] == [Committed(batch)];
    OverIsFinal(t, es, agrees);
    LeftoverIsShownFirst(t, turn, gen, agrees);
    assert [Committed(batch)] + [Turn(false), Shown(batch)] == [Committed(batch), Turn(false), Shown(batch)];
  }

  /** With distinct ids, the line of an answer carries the header of the question that was asked. */
  lemma {:induction false} HeaderCorrelates(batch: Batch, i: nat)
    requires i < |batch| && forall j, k :: 0 <= j < k < |batch| ==> batch[j].id != batch[k].id
    ensures HeaderOf(batch, batch[i].id) == batch[i].header
  {
    var n := |batch| - 1;
    if i < n {
      assert batch[n].id != batch[i].id;
      HeaderCorrelates(batch[..n], i);
    }
  }
}
