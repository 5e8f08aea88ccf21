/**
 Optimistic consolidation: at most one background pass per project, a save epoch the pass
 captures when it starts, and cancellation by every save, newer pass or disconnect. The same
 code serves Manual Dreaming and the `/init` draft, each with a registry of its own.
 */
module Consolidation {
  type Client = string
  type Project = string

  /** How far a pass has come: the stale check comes last before the write begins. */
  datatype Phase = Drafting | Checked | Written(at: nat)

  datatype Pass = Pass(project: Project, epoch: nat, startedAt: nat, phase: Phase, cancelled: bool, done: bool)

  datatype State = State(
    bound: map<Client, Project>,
    slots: map<Project, nat>,      // the pass each project last started, if not yet evicted
    epochs: map<Project, nat>,
    passes: seq<Pass>)

  datatype Event =
    | Bind(client: Client, project: Project)
    | Trigger(client: Client)
    | Save(client: Client)
    | Check(pass: nat)             // the pass runs its stale check; a stale one ends there
    | Write(pass: nat)             // behind the lock, the write begins unless the task was cancelled
    | Finish(pass: nat)
    | Evict(pass: nat)             // the done-callback of a finished pass
    | Disconnect(client: Client)

  function ProjectOf(s: State, client: Client): Project {
    if client in s.bound then s.bound[client] else ""
  }

  function EpochOf(s: State, p: Project): nat {
    if p in s.epochs then s.epochs[p] else 0
  }

  /** Cancel the pass in the project's slot unless it has finished. */
  function Cancelling(s: State, p: Project): seq<Pass> {
    if p in s.slots && s.slots[p] < |s.passes| && !s.passes[s.slots[p]].done
    then s.passes[s.slots[p] := s.passes[s.slots[p]].(cancelled := true)] else s.passes
  }

  function Triggered(s: State, p: Project, at: nat): State {
    s.(passes := Cancelling(s, p) + [Pass(p, EpochOf(s, p), at, Drafting, false, false)],
       slots := s.slots[p := |s.passes|])
  }

  function Saved(s: State, p: Project): State {
    if p == "" then s
    else s.(epochs := s.epochs[p := EpochOf(s, p) + 1], passes := Cancelling(s, p))
  }

  /** The disconnect also drops the project's epoch counter. */
  function Dropped(s: State, p: Project): State {
    if p == "" then s
    else s.(passes := Cancelling(s, p), slots := s.slots - {p}, epochs := s.epochs - {p})
  }

  function Finished(s: State, i: nat): State {
    if i < |s.passes| then s.(passes := s.passes[i := s.passes[i].(done := true)]) else s
  }

  function Evicted(s: State, i: nat): State {
    if i < |s.passes| && s.passes[i].done && s.passes[i].project in s.slots && s.slots[s.passes[i].project] == i
    then s.(slots := s.slots - {s.passes[i].project}) else s
  }

  /** The pass's own check before it commits. */
  predicate Stale(s: State, i: nat)
    requires i < |s.passes|
  {
    EpochOf(s, s.passes[i].project) != s.passes[i].epoch
  }

  predicate Active(s: State, i: nat) {
    i < |s.passes| && !s.passes[i].cancelled && !s.passes[i].done
  }

  function Next(s: State, e: Event, at: nat): State {
    match e
    case Bind(client, p) => s.(bound := s.bound[client := p])
    case Trigger(client) => Triggered(s, ProjectOf(s, client), at)
    case Save(client) => Saved(s, ProjectOf(s, client))
    case Check(i) =>
      if !Active(s, i) || !s.passes[i].phase.Drafting? then s
      else if Stale(s, i) then s.(passes := s.passes[i := s.passes[i].(done := true)])
      else s.(passes := s.passes[i := s.passes[i].(phase := Checked)])
    case Write(i) =>
      if !Active(s, i) || !s.passes[i].phase.Checked? then s
      else s.(passes := s.passes[i := s.passes[i].(phase := Written(at))])
    case Finish(i) => Finished(s, i)
    case Evict(i) => Evicted(s, i)
    case Disconnect(client) => Dropped(s, ProjectOf(s, client)).(bound := s.bound - {client})
  }

  function Run(es: seq<Event>): State {
    if es == [] then State(map[], map[], map[], [])
    else Next(Run(es[..|es| - 1]), es[|es| - 1], |es| - 1)
  }

  // ---------------------------------------------------------------------
  // The registry
  // ---------------------------------------------------------------------

  /** `asyncio.Task`: cancelling a finished task would be a no-op. */
  class Task {
    const project: Project
    const epochAtStart: nat
    var cancelled: bool
    var done: bool

    constructor (project: Project, epochAtStart: nat)
      ensures this.project == project && this.epochAtStart == epochAtStart && !cancelled && !done
    {
      this.project, this.epochAtStart := project, epochAtStart;
      cancelled, done := false, false;
    }

    /** The task object is the pass of the abstract state. */
    ghost predicate Is(pass: Pass)
      reads this
    {
      project == pass.project && epochAtStart == pass.epoch && cancelled == pass.cancelled && done == pass.done
    }
  }

  /**
   The two dictionaries of a registry. Each method is one step of the abstract machine: if the objects
   show a state before, they show the state the corresponding function gives after.
   */
  class Registry {
    var tasks: map<Project, Task>
    var epochs: map<Project, nat>
    ghost var spawned: seq<Task>      // every task ever started, in order

    constructor ()
      ensures Shows(State(map[], map[], map[], [])) && spawned == []
    {
      tasks, epochs, spawned := map[], map[], [];
    }

    ghost predicate Shows(s: State)
      reads this, spawned
    {
      && epochs == s.epochs && tasks.Keys == s.slots.Keys
      && |spawned| == |s.passes|
      && (forall i, j :: 0 <= i < j < |spawned| ==> spawned[i] != spawned[j])
      && (forall i :: 0 <= i < |spawned| ==> spawned[i].Is(s.passes[i]))
      && (forall p :: p in tasks ==> s.slots[p] < |spawned| && tasks[p] == spawned[s.slots[p]])
    }

    function Epoch(p: Project): nat
      reads this
    {
      if p in epochs then epochs[p] else 0
    }

    /** The closure a pass checks before it writes. */
    method IsStale(task: Task, ghost s: State, ghost i: nat) returns (stale: bool)
      requires Shows(s) && i < |spawned| && spawned[i] == task
      ensures stale == Stale(s, i)
    {
      stale := Epoch(task.project) != task.epochAtStart;
    }

    /** The task in the project's slot is cancelled unless it has finished. */
    method CancelSlot(p: Project, ghost s: State)
      requires Shows(s)
      modifies spawned
      ensures Shows(s.(passes := Cancelling(s, p)))
    {
      if p in tasks && !tasks[p].done {
        tasks[p].cancelled := true;
      }
    }

    method Abort(p: Project, ghost s: State)
      requires Shows(s)
      modifies this`epochs, spawned
      ensures Shows(Saved(s, p))
    {
      if p == "" {
        return;
      }
      epochs := epochs[p := Epoch(p) + 1];
      CancelSlot(p, s.(epochs := epochs));
    }

    method Start(p: Project, ghost s: State, ghost at: nat) returns (task: Task)
      requires Shows(s)
      modifies this, spawned
      ensures fresh(task) && spawned == old(spawned) + [task]
      ensures Shows(Triggered(s, p, at))
    {
      CancelSlot(p, s);
      task := new Task(p, Epoch(p));
      tasks := tasks[p := task];
      spawned := spawned + [task];
    }

    /** The task ends, however it ends. */
    method Finish(task: Task, ghost s: State, ghost i: nat)
      requires Shows(s) && i < |spawned| && spawned[i] == task
      modifies task
      ensures Shows(Finished(s, i))
    {
      task.done := true;
    }

    /** The done-callback: the slot is dropped only if it still holds this very task. */
    method EvictTask(task: Task, ghost s: State, ghost i: nat)
      requires Shows(s) && i < |spawned| && spawned[i] == task && task.done
      modifies this`tasks
      ensures Shows(Evicted(s, i))
    {
      if task.project in tasks && tasks[task.project] == task {
        tasks := tasks - {task.project};
      }
    }

    method DropProject(p: Project, ghost s: State)
      requires Shows(s)
      modifies this, spawned
      ensures spawned == old(spawned) && Shows(Dropped(s, p))
    {
      if p != "" {
        CancelSlot(p, s);
        tasks := tasks - {p};
        epochs := epochs - {p};
      }
    }
  }

  // ---------------------------------------------------------------------
  // Whole runs
  // ---------------------------------------------------------------------

  /** The event must invalidate a running pass of `p`. */
  predicate Hits(s: State, e: Event, p: Project) {
    match e
    case Trigger(client) => ProjectOf(s, client) == p
    case Save(client) => p != "" && ProjectOf(s, client) == p
    case Disconnect(client) => p != "" && ProjectOf(s, client) == p
    case _ => false
  }

  predicate Invalidates(es: seq<Event>, j: nat, p: Project)
    requires j < |es|
  {
    Hits(Run(es[..j]), es[j], p)
  }

  predicate Saves(es: seq<Event>, j: nat, p: Project)
    requires j < |es|
  {
    es[j].Save? && Invalidates(es, j, p)
  }

  predicate Drops(es: seq<Event>, j: nat, p: Project)
    requires j < |es|
  {
    es[j].Disconnect? && Invalidates(es, j, p)
  }

  /** Something invalidated the project after event `from`. */
  ghost predicate InvalidatedSince(es: seq<Event>, from: nat, p: Project) {
    exists j :: from < j < |es| && Invalidates(es, j, p)
  }

  /** Saves of the project since its epoch counter was last dropped. */
  function SaveCount(es: seq<Event>, p: Project): nat {
    if es == [] then 0
    else
      var n, j := SaveCount(es[..|es| - 1], p), |es| - 1;
      if Drops(es, j, p) then 0 else if Saves(es, j, p) then n + 1 else n
  }

  ghost predicate SlotInv(s: State, p: Project) {
    p in s.slots ==> s.slots[p] < |s.passes| && s.passes[s.slots[p]].project == p
  }

  /** An active pass sits in its project's slot and has seen every save of it. */
  ghost predicate ActiveInv(s: State, i: nat) {
    Active(s, i) ==>
      var pass := s.passes[i];
      && pass.project in s.slots && s.slots[pass.project] == i
      && (pass.project != "" ==> pass.epoch == EpochOf(s, pass.project))
  }

  ghost predicate PassInv(es: seq<Event>, s: State, i: nat) {
    i < |s.passes| ==>
      var pass := s.passes[i];
      && pass.startedAt < |es|
      && (!pass.done ==> (pass.cancelled <==> InvalidatedSince(es, pass.startedAt, pass.project)))
  }

  ghost predicate Inv(es: seq<Event>, s: State) {
    && (forall p :: SlotInv(s, p))
    && (forall i :: ActiveInv(s, i) && PassInv(es, s, i))
    && (forall p :: p != "" ==> EpochOf(s, p) == SaveCount(es, p))
  }

  lemma PrefixInvalidates(es: seq<Event>, j: nat, p: Project)
    requires j < |es| - 1
    ensures Invalidates(es, j, p) <==> Invalidates(es[..|es| - 1], j, p)
  {
    assert es[..|es| - 1][..j] == es[..j];
  }

  /** The last event either invalidates or leaves the question as it was. */
  lemma InvalidatedSnoc(es: seq<Event>, from: nat, p: Project)
    requires es != [] && from < |es| - 1
    ensures InvalidatedSince(es, from, p)
       <==> InvalidatedSince(es[..|es| - 1], from, p) || Invalidates(es, |es| - 1, p)
  {
    if InvalidatedSince(es[..|es| - 1], from, p) {
      var j :| from < j < |es| - 1 && Invalidates(es[..|es| - 1], j, p);
      PrefixInvalidates(es, j, p);
    }
    if InvalidatedSince(es, from, p) {
      var j :| from < j < |es| && Invalidates(es, j, p);
      if j < |es| - 1 {
        PrefixInvalidates(es, j, p);
      }
    }
  }

  /** One event, one pass: exactly an invalidating event cancels it. */
  lemma PassStep(s: State, e: Event, at: nat, i: nat)
    requires i < |s.passes| && SlotInv(s, s.passes[i].project) && ActiveInv(s, i)
    requires forall p :: SlotInv(s, p)
    ensures var t, pass := Next(s, e, at), s.passes[i];
            && i < |t.passes|
            && t.passes[i].project == pass.project && t.passes[i].startedAt == pass.startedAt
            && (pass.done ==> t.passes[i].done)
            && (!t.passes[i].done ==> t.passes[i].cancelled == (pass.cancelled || Hits(s, e, pass.project)))
            && ActiveInv(t, i)
  {
    var p := s.passes[i].project;
    if e.Trigger? || e.Save? || e.Disconnect? {
      assert SlotInv(s, ProjectOf(s, e.client));
    }
  }

  lemma PassKept(es: seq<Event>, i: nat)
    requires es != [] && Inv(es[..|es| - 1], Run(es[..|es| - 1]))
    ensures ActiveInv(Run(es), i) && PassInv(es, Run(es), i)
  {
    var init, e := es[..|es| - 1], es[|es| - 1];
    var s, t := Run(init), Run(es);
    assert ActiveInv(s, i) && PassInv(init, s, i);
    if i < |s.passes| {
      assert SlotInv(s, s.passes[i].project);
      PassStep(s, e, |es| - 1, i);
      InvalidatedSnoc(es, s.passes[i].startedAt, s.passes[i].project);
    } else {
      hide InvalidatedSince;
      NewPass(es, i);
    }
  }

  /** A pass that has finished is left alone for good: a later save or trigger does not cancel it. */
  lemma {:induction false} FinishedIsFinal(es: seq<Event>, more: seq<Event>, i: nat)
    requires i < |Run(es).passes| && Run(es).passes[i].done
    ensures i < |Run(es + more).passes| && Run(es + more).passes[i] == Run(es).passes[i]
    decreases |more|
  {
    if more == [] {
      assert es + more == es;
    } else {
      hide *;
      var init, e := es + more[..|more| - 1], more[|more| - 1];
      FinishedIsFinal(es, more[..|more| - 1], i);
      FinishedStays(Run(init), e, |init|, i);
      RunOneMore(init, e);
      assert es + more == init + [e];
    }
  }

  lemma RunOneMore(es: seq<Event>, e: Event)
    ensures Run(es + [e]) == Next(Run(es), e, |es|)
  {
    hide Next;
    assert (es + [e])[..|es|] == es;
  }

  /** The pass's own check lets it go on exactly while the counter is what the pass captured, and ends it else. */
  lemma CheckDecides(s: State, i: nat, at: nat)
    requires Active(s, i) && s.passes[i].phase.Drafting?
    ensures var pass, t := s.passes[i], Next(s, Check(i), at).passes[i];
            var current := if pass.project in s.epochs then s.epochs[pass.project] else 0;
            && (t.phase.Checked? && !t.done <==> current == pass.epoch)
            && (t.phase.Drafting? && t.done <==> current != pass.epoch)
  {
  }

  /** A client that has disconnected is bound to no project: until it binds again, its saves are none. */
  lemma DisconnectedSaveIsNone(s: State, client: Client, at: nat, later: nat)
    ensures var t := Next(s, Disconnect(client), at);
            Next(t, Save(client), later) == t && Next(t, Disconnect(client), later) == t
  {
    var t := Next(s, Disconnect(client), at);
    assert t.bound - {client} == t.bound;
  }

  lemma FinishedStays(s: State, e: Event, at: nat, i: nat)
    requires i < |s.passes| && s.passes[i].done
    ensures i < |Next(s, e, at).passes| && Next(s, e, at).passes[i] == s.passes[i]
  {
  }

  /** A pass that starts with the last event: nothing has invalidated it yet. */
  lemma NewPass(es: seq<Event>, i: nat)
    requires es != [] && i >= |Run(es[..|es| - 1]).passes|
    ensures ActiveInv(Run(es), i) && PassInv(es, Run(es), i)
  {
    hide Invalidates;
    var s, e, n := Run(es[..|es| - 1]), es[|es| - 1], |es| - 1;
    if i < |Run(es).passes| {
      TriggerAdds(s, e, n, i);
    }
  }

  /** Only a trigger adds a pass: live, in its slot, with the current epoch. */
  lemma TriggerAdds(s: State, e: Event, at: nat, i: nat)
    requires |s.passes| <= i < |Next(s, e, at).passes|
    ensures var t := Next(s, e, at);
            && i == |s.passes| && e.Trigger? && !t.passes[i].cancelled && !t.passes[i].done
            && t.passes[i].startedAt == at && t.passes[i].phase == Drafting
            && t.passes[i].epoch == EpochOf(s, t.passes[i].project) == EpochOf(t, t.passes[i].project)
            && t.passes[i].project in t.slots && t.slots[t.passes[i].project] == i
  {
  }

  lemma {:induction false} RunKeeps(es: seq<Event>)
    ensures Inv(es, Run(es))
  {
    if es != [] {
      var init := es[..|es| - 1];
      RunKeeps(init);
      forall p
        ensures SlotInv(Run(es), p)
      {
        assert SlotInv(Run(init), p);
        SlotStep(Run(init), es[|es| - 1], |es| - 1, p);
      }
      forall i
        ensures ActiveInv(Run(es), i) && PassInv(es, Run(es), i)
      {
        PassKept(es, i);
      }
      forall p | p != ""
        ensures EpochOf(Run(es), p) == SaveCount(es, p)
      {
        EpochStep(Run(init), es[|es| - 1], |es| - 1, p);
      }
    }
  }

  lemma SlotStep(s: State, e: Event, at: nat, p: Project)
    requires SlotInv(s, p)
    ensures SlotInv(Next(s, e, at), p)
  {
  }

  lemma EpochStep(s: State, e: Event, at: nat, p: Project)
    requires p != ""
    ensures EpochOf(Next(s, e, at), p)
         == if e.Disconnect? && Hits(s, e, p) then 0
            else EpochOf(s, p) + if e.Save? && Hits(s, e, p) then 1 else 0
  {
  }

  /**
   At most one pass of a project is uncancelled and unfinished; it is the one in the slot and the
   epoch it captured is the current one.
   */
  lemma {:induction false} SoleActivePass(es: seq<Event>, i: nat, j: nat)
    requires Active(Run(es), i) && Active(Run(es), j)
    requires Run(es).passes[i].project == Run(es).passes[j].project
    ensures i == j && Run(es).passes[i].project in Run(es).slots && Run(es).slots[Run(es).passes[i].project] == i
    ensures Run(es).passes[i].project != "" ==> !Stale(Run(es), i)
  {
    RunKeeps(es);
    assert ActiveInv(Run(es), i) && ActiveInv(Run(es), j);
  }

  /** An unfinished pass is uncancelled if and only if nothing invalidated its project since it started. */
  lemma ActiveIffNotInvalidated(es: seq<Event>, i: nat)
    requires i < |Run(es).passes| && !Run(es).passes[i].done
    ensures var pass := Run(es).passes[i];
            !pass.cancelled <==> !InvalidatedSince(es, pass.startedAt, pass.project)
  {
    RunKeeps(es);
    assert PassInv(es, Run(es), i);
  }

  /** What a phase records never changes again, and only the write of a live pass records one. */
  lemma PhaseStep(s: State, e: Event, at: nat, i: nat)
    requires i < |s.passes|
    ensures var t := Next(s, e, at);
            && i < |t.passes| && t.passes[i].project == s.passes[i].project && t.passes[i].startedAt == s.passes[i].startedAt
            && (s.passes[i].phase.Written? ==> t.passes[i].phase == s.passes[i].phase)
            && (t.passes[i].phase.Written? && !s.passes[i].phase.Written? ==>
                  t.passes[i].phase.at == at && Active(s, i))
  {
  }

  /** A pass whose write began saw nothing that invalidates it between its start and that moment. */
  lemma {:induction false} WriteSawNothing(es: seq<Event>, i: nat)
    requires i < |Run(es).passes| && Run(es).passes[i].phase.Written?
    ensures var pass := Run(es).passes[i];
            && pass.startedAt < pass.phase.at < |es|
            && forall j :: pass.startedAt < j < pass.phase.at ==> !Invalidates(es, j, pass.project)
  {
    hide Next, Inv, Invalidates;
    var n := |es| - 1;
    var init := es[..n];
    var s := Run(init);
    if i >= |s.passes| {
      TriggerAdds(s, es[n], n, i);
    } else {
      PhaseStep(s, es[n], n, i);
      if s.passes[i].phase.Written? {
        WriteSawNothing(init, i);
      } else {
        RunKeeps(init);
        StartsBefore(init, i);
        ActiveIffNotInvalidated(init, i);
      }
      forall j | s.passes[i].startedAt < j < Run(es).passes[i].phase.at
        ensures !Invalidates(es, j, s.passes[i].project)
      {
        PrefixInvalidates(es, j, s.passes[i].project);
      }
    }
  }

  lemma StartsBefore(es: seq<Event>, i: nat)
    requires i < |Run(es).passes|
    ensures Run(es).passes[i].startedAt < |es|
  {
    RunKeeps(es);
    assert PassInv(es, Run(es), i);
  }

  /** No save lies between the start of a pass and the beginning of its write, behind the stale check included. */
  lemma CommitSawNoSave(es: seq<Event>, i: nat, j: nat)
    requires i < |Run(es).passes| && Run(es).passes[i].phase.Written?
    requires Run(es).passes[i].startedAt < j < Run(es).passes[i].phase.at
    ensures j < |es| && !Saves(es, j, Run(es).passes[i].project)
  {
    WriteSawNothing(es, i);
  }

  /** The epoch counts the saves since the project's last disconnect, which resets it. */
  lemma {:induction false} EpochCountsSaves(es: seq<Event>, p: Project)
    requires p != ""
    ensures EpochOf(Run(es), p) == SaveCount(es, p)
  {
    RunKeeps(es);
  }

  /** Nothing about the project was dropped after event `from`. */
  ghost predicate KeptSince(es: seq<Event>, from: nat, p: Project) {
    forall j :: from < j < |es| ==> !Drops(es, j, p)
  }

  lemma {:induction false} EpochGrows(es: seq<Event>, k: nat, p: Project)
    requires p != "" && 0 < k <= |es| && KeptSince(es, k - 1, p)
    ensures SaveCount(es[..k], p) <= SaveCount(es, p)
    ensures SaveCount(es[..k], p) < SaveCount(es, p) <==> exists j :: k <= j < |es| && Saves(es, j, p)
    decreases |es|
  {
    if k == |es| {
      assert es[..k] == es;
    } else {
      var init := es[..|es| - 1];
      forall j | k - 1 < j < |es| - 1
        ensures !Drops(init, j, p) && (Saves(init, j, p) <==> Saves(es, j, p))
      {
        assert !Drops(es, j, p);
        PrefixInvalidates(es, j, p);
      }
      assert init[..k] == es[..k];
      EpochGrows(init, k, p);
      assert !Drops(es, |es| - 1, p);
    }
  }

  lemma {:induction false} CapturedEpoch(es: seq<Event>, i: nat)
    requires i < |Run(es).passes| && Run(es).passes[i].project != ""
    ensures var pass := Run(es).passes[i];
            && pass.startedAt < |es| && pass.epoch == SaveCount(es[..pass.startedAt + 1], pass.project)
  {
    hide Next, Inv;
    var init := es[..|es| - 1];
    var s, e := Run(init), es[|es| - 1];
    if i < |s.passes| {
      PassFixed(s, e, |es| - 1, i);
      CapturedEpoch(init, i);
      assert init[..s.passes[i].startedAt + 1] == es[..s.passes[i].startedAt + 1];
    } else {
      TriggerAdds(s, e, |es| - 1, i);
      EpochCountsSaves(init, Run(es).passes[i].project);
      assert es[..|es|] == es;
    }
  }

  lemma PassFixed(s: State, e: Event, at: nat, i: nat)
    requires i < |s.passes|
    ensures var t := Next(s, e, at);
            && i < |t.passes| && t.passes[i].project == s.passes[i].project
            && t.passes[i].epoch == s.passes[i].epoch && t.passes[i].startedAt == s.passes[i].startedAt
  {
  }

  /** Without a disconnect of the project, the stale check alone is exact. */
  lemma StaleIffSaved(es: seq<Event>, i: nat)
    requires i < |Run(es).passes| && Run(es).passes[i].project != ""
    requires KeptSince(es, Run(es).passes[i].startedAt, Run(es).passes[i].project)
    ensures var pass := Run(es).passes[i];
            Stale(Run(es), i) <==> exists j :: pass.startedAt < j < |es| && Saves(es, j, pass.project)
  {
    var pass := Run(es).passes[i];
    CapturedEpoch(es, i);
    EpochCountsSaves(es, pass.project);
    EpochGrows(es, pass.startedAt + 1, pass.project);
  }

  /** In general: a pass is stale if and only if the count of saves is no longer the one it captured. */
  lemma StaleIff(es: seq<Event>, i: nat)
    requires i < |Run(es).passes| && Run(es).passes[i].project != ""
    ensures var pass := Run(es).passes[i];
            && pass.startedAt < |es|
            && (Stale(Run(es), i)
                <==> SaveCount(es, pass.project) != SaveCount(es[..pass.startedAt + 1], pass.project))
  {
    CapturedEpoch(es, i);
    EpochCountsSaves(es, Run(es).passes[i].project);
  }

  ghost predicate SavedSince(es: seq<Event>, from: nat, p: Project) {
    exists j :: from < j < |es| && Saves(es, j, p)
  }

  /**
   The stale check misses a save if and only if the project was dropped since the pass started and has
   been saved since the last drop exactly as often as before the start. The pass is then cancelled or over.
   */
  lemma SaveMissedIff(es: seq<Event>, i: nat)
    requires i < |Run(es).passes| && Run(es).passes[i].project != ""
    ensures var pass := Run(es).passes[i];
            && pass.startedAt < |es|
            && (SavedSince(es, pass.startedAt, pass.project) && !Stale(Run(es), i)
                <==> SavedSince(es, pass.startedAt, pass.project) && !KeptSince(es, pass.startedAt, pass.project)
                     && SaveCount(es, pass.project) == SaveCount(es[..pass.startedAt + 1], pass.project))
            && (SavedSince(es, pass.startedAt, pass.project) ==> pass.cancelled || pass.done)
  {
    var pass := Run(es).passes[i];
    StaleIff(es, i);
    if KeptSince(es, pass.startedAt, pass.project) {
      StaleIffSaved(es, i);
    }
    if SavedSince(es, pass.startedAt, pass.project) && !pass.done {
      ActiveIffNotInvalidated(es, i);
    }
  }

  /** With one it is not: the reset counter meets the captured epoch again; only the cancel remains. */
  lemma DisconnectHidesSave(c: Client, p: Project)
    requires p != ""
    ensures var s := Run([Bind(c, p), Trigger(c), Save(c), Disconnect(c)]);
            |s.passes| == 1 && !Stale(s, 0) && s.passes[0].cancelled && !s.passes[0].done
  {
    var e1 := [Bind(c, p)];
    var e2 := e1 + [Trigger(c)];
    var e3 := e2 + [Save(c)];
    var e4 := e3 + [Disconnect(c)];
    assert e1[..0] == [] && e2[..1] == e1 && e3[..2] == e2 && e4[..3] == e3;
    assert Run([]) == State(map[], map[], map[], []);
    assert Run(e2).passes == [Pass(p, 0, 1, Drafting, false, false)];
    assert Run(e3).passes == [Pass(p, 0, 1, Drafting, true, false)];
    assert e4 == [Bind(c, p), Trigger(c), Save(c), Disconnect(c)];
  }
}
