/**
 Every run of one interactive session: host pushes, exits and closes on one side, the
 demux task in the middle, the stream reader on the other side, in any interleaving.
 An event that is not enabled in the current state changes nothing, so a run is simply
 a sequence of events.
 */
module SessionPipeline {
  import opened Prelude
  import opened SessionQueues

  /** How a chunk left a queue. */
  datatype Departure = Taken(bytes: Bytes) | Evicted(bytes: Bytes)

  /** What has happened to one queue so far. */
  datatype Log = Log(accepted: seq<Bytes>, departed: seq<Departure>, closed: bool, ended: bool)

  /** The demux task: not begun, waiting for an item, holding framed output, finished. */
  datatype Demux = Scheduled | Getting | Busy(emit: Bytes) | Done

  datatype State = State(
    session: Session,
    log: Log,
    pushes: nat,
    drops: nat,
    signals: seq<bool>,
    demux: Demux,
    out: Buffer,
    outLog: Log)

  datatype Event =
    | Push(decoded: Option<Bytes>)   // a host chunk, or one that fails to decode
    | HostExit                       // the host reports the shell's exit
    | Close                          // failed open, graceful close or disconnect
    | Begin                          // the demux task runs its first block
    | Get(emit: Bytes)               // the demux takes an item and frames it into `emit`
    | Put                            // the framed output is handed to the reader's queue
    | Abort                          // the demux fails or is cancelled at an await
    | JoinTimeout                    // teardown gives up waiting for the demux
    | Read                           // the stream reader takes an item

  function DataOf(items: seq<Item>): seq<Bytes> {
    if items == [] then []
    else (if items[0].Data? then [items[0].bytes] else []) + DataOf(items[1..])
  }

  function BytesOf(departed: seq<Departure>): seq<Bytes> {
    seq(|departed|, i requires 0 <= i < |departed| => departed[i].bytes)
  }

  function Accepting(log: Log, chunk: Bytes): Log {
    log.(accepted := log.accepted + [chunk])
  }

  /** What forcing the end of a queue throws out of it. */
  function ForcedOut(items: Buffer): seq<Departure> {
    if |items| == CAPACITY && items[0].Data? then [Evicted(items[0].bytes)] else []
  }

  /** The log of a queue that is forced to end while holding `items`. */
  function Forcing(log: Log, items: Buffer): Log {
    log.(closed := true,
         departed := log.departed + ForcedOut(items))
  }

  /** The log of a queue whose consumer takes `item`. */
  function Taking(log: Log, item: Item): Log {
    match item
    case Data(b) => log.(departed := log.departed + [Taken(b)])
    case Eof => log.(ended := true)
  }

  function Exit(s: State): State {
    if !s.session.registered then s
    else s.(session := Exited(s.session), log := Forcing(s.log, s.session.items))
  }

  function Unregister(s: State): State {
    s.(session := Unregistered(s.session),
       log := if s.session.registered then Forcing(s.log, s.session.items) else s.log)
  }

  function ForceOut(s: State): State {
    s.(out := ForcedEof(s.out), outLog := Forcing(s.outLog, s.out))
  }

  /** The demux task's `finally` block. */
  function Finish(s: State): State {
    Unregister(ForceOut(s)).(demux := Done)
  }

  /** Apply the flow-control check and record the signal it reports. */
  function Checked(s: State): State {
    s.(session := Flowed(s.session),
       signals := match Flow(s.session) case None => s.signals case Some(p) => s.signals + [p])
  }

  function Pushed(s: State, chunk: Bytes): State {
    var t := s.(session := Enqueued(s.session, chunk), pushes := s.pushes + 1);
    if Fits(s.session) then Checked(t.(log := Accepting(s.log, chunk))) else t.(drops := s.drops + 1)
  }

  function Got(s: State, emit: Bytes): State
    requires s.session.items != []
  {
    var item := s.session.items[0];
    var t := s.(session := s.session.(items := s.session.items[1..]), log := Taking(s.log, item));
    match item
    case Eof => Finish(t)
    case Data(_) => Checked(t).(demux := Busy(emit))
  }

  function Next(s: State, e: Event): State {
    match e
    case Push(decoded) => if s.session.registered && decoded.Some? then Pushed(s, decoded.value) else s
    case HostExit => Exit(s)
    case Close => Unregister(s)
    case Begin =>
      if !s.demux.Scheduled? then s else if s.session.registered then s.(demux := Getting) else Finish(s)
    case Get(emit) => if s.demux.Getting? && s.session.items != [] then Got(s, emit) else s
    case Put =>
      if !s.demux.Busy? then s
      else if s.demux.emit == [] then s.(demux := Getting)
      else if |s.out| < CAPACITY then
        s.(demux := Getting, out := s.out + [Data(s.demux.emit)], outLog := Accepting(s.outLog, s.demux.emit))
      else s
    case Abort => if s.demux.Getting? || s.demux.Busy? then Finish(s) else s
    case JoinTimeout =>
      // a task cancelled before its first block never enters its try/finally
      Unregister(ForceOut(s)).(demux := if s.demux.Scheduled? then Done else s.demux)
    case Read =>
      if s.out == [] || s.outLog.ended then s
      else s.(out := s.out[1..], outLog := Taking(s.outLog, s.out[0]))
  }

  /** The state `wait_devcontainer_session_opened` creates. */
  const Opened: State :=
    State(Session(true, [], false, 0), Log([], [], false, false), 0, 0, [], Scheduled, [], Log([], [], false, false))

  /** The state after the events `es`, starting from `s`. */
  function Exec(s: State, es: seq<Event>): State
    decreases es
  {
    if es == [] then s else Exec(Next(s, es[0]), es[1..])
  }

  // ---------------------------------------------------------------------
  // The invariant
  // ---------------------------------------------------------------------

  /** Nothing is lost or reordered, and an ended queue keeps its sentinel until it is taken. */
  ghost predicate QueueInv(items: Buffer, log: Log) {
    && BytesOf(log.departed) + DataOf(items) == log.accepted
    && (log.closed && !log.ended ==> Eof in items)
    && (log.ended || Eof in items ==> log.closed)
  }

  /** Pause and resume signals alternate, starting with a pause. */
  ghost predicate Alternating(signals: seq<bool>) {
    forall i :: 0 <= i < |signals| ==> signals[i] == (i % 2 == 0)
  }

  predicate LastIsPause(signals: seq<bool>) {
    |signals| % 2 == 1
  }

  /** Everything but the low-water clause, which the flow check re-establishes. */
  ghost predicate InvButFlow(s: State) {
    && QueueInv(s.session.items, s.log)
    && QueueInv(s.out, s.outLog)
    && Alternating(s.signals)
    && (s.session.registered ==> s.session.paused == LastIsPause(s.signals))
    && (s.session.paused ==> s.session.registered)
    && s.pushes == |s.log.accepted| + s.drops
    && (s.session.registered ==> s.drops == s.session.dropped)
    && (!s.session.registered ==> s.log.closed)
    && (s.log.ended ==> s.demux.Done?)
    && (s.demux.Done? ==> s.outLog.closed && !s.session.registered)
  }

  ghost predicate Inv(s: State) {
    && InvButFlow(s)
    && (s.session.paused ==> |s.session.items| > LOW_WATER)
  }

  lemma {:induction false} DataOfAppend(a: seq<Item>, b: seq<Item>)
    ensures DataOf(a + b) == DataOf(a) + DataOf(b)
  {
    if a != [] {
      assert (a + b)[1..] == a[1..] + b;
      DataOfAppend(a[1..], b);
    } else {
      assert a + b == b;
    }
  }

  lemma ForcingKeepsQueue(items: Buffer, log: Log)
    requires QueueInv(items, log)
    ensures QueueInv(ForcedEof(items), Forcing(log, items))
    ensures Forcing(log, items).closed && Eof in ForcedEof(items)
  {
    var r := ForcedEof(items);
    assert r[|r| - 1] == Eof;
    hide DataOf, BytesOf;
    ForcedData(items);
    BytesOfAppend(log.departed, ForcedOut(items));
    assert log.departed + [] == log.departed;
  }

  lemma ForcedData(items: Buffer)
    ensures BytesOf(ForcedOut(items)) + DataOf(ForcedEof(items)) == DataOf(items)
  {
    assert DataOf([Eof]) == [];
    if |items| < CAPACITY {
      DataOfAppend(items, [Eof]);
    } else {
      DataOfAppend(items[1..], [Eof]);
    }
  }

  lemma BytesOfAppend(a: seq<Departure>, b: seq<Departure>)
    ensures BytesOf(a + b) == BytesOf(a) + BytesOf(b)
  {
  }

  lemma PuttingKeepsQueue(items: Buffer, log: Log, chunk: Bytes)
    requires QueueInv(items, log) && |items| < CAPACITY
    ensures QueueInv(items + [Data(chunk)], Accepting(log, chunk))
  {
    DataOfAppend(items, [Data(chunk)]);
  }

  lemma TakingKeepsQueue(items: Buffer, log: Log)
    requires QueueInv(items, log) && items != [] && !log.ended
    ensures QueueInv(items[1..], Taking(log, items[0]))
  {
    assert items == [items[0]] + items[1..];
    if items[0].Data? {
      var b := [Taken(items[0].bytes)];
      BytesOfAppend(log.departed, b);
      assert BytesOf(b) + DataOf(items[1..]) == DataOf(items);
    }
  }

  lemma ExitKeeps(s: State)
    requires Inv(s)
    ensures Inv(Exit(s))
  {
    ForcingKeepsQueue(s.session.items, s.log);
  }

  lemma UnregisterKeeps(s: State)
    requires Inv(s)
    ensures Inv(Unregister(s)) && Unregister(s).log.closed
  {
    ForcingKeepsQueue(s.session.items, s.log);
  }

  lemma FinishKeeps(s: State)
    requires Inv(s)
    ensures Inv(Finish(s))
  {
    ForcingKeepsQueue(s.out, s.outLog);
    ForcingKeepsQueue(s.session.items, s.log);
  }

  lemma CheckedKeeps(s: State)
    requires InvButFlow(s)
    ensures Inv(Checked(s))
  {
  }

  lemma GotKeeps(s: State, emit: Bytes)
    requires Inv(s) && s.demux.Getting? && s.session.items != []
    ensures Inv(Got(s, emit))
  {
    var item := s.session.items[0];
    TakingKeepsQueue(s.session.items, s.log);
    var t := s.(session := s.session.(items := s.session.items[1..]), log := Taking(s.log, item));
    if item.Eof? {
      ForcingKeepsQueue(t.out, t.outLog);
      ForcingKeepsQueue(t.session.items, t.log);
    } else {
      CheckedKeeps(t);
    }
  }

  lemma PushKeeps(s: State, chunk: Bytes)
    requires Inv(s) && s.session.registered
    ensures Inv(Pushed(s, chunk))
  {
    if Fits(s.session) {
      PuttingKeepsQueue(s.session.items, s.log, chunk);
      CheckedKeeps(s.(session := Enqueued(s.session, chunk), pushes := s.pushes + 1, log := Accepting(s.log, chunk)));
    }
  }

  lemma OutletKeeps(s: State, e: Event)
    requires Inv(s) && (e.Put? || e.Read?)
    ensures Inv(Next(s, e))
  {
    if e.Put? && s.demux.Busy? && |s.out| < CAPACITY {
      PuttingKeepsQueue(s.out, s.outLog, s.demux.emit);
    }
    if e.Read? && s.out != [] && !s.outLog.ended {
      TakingKeepsQueue(s.out, s.outLog);
    }
  }

  lemma JoinTimeoutKeeps(s: State)
    requires Inv(s)
    ensures Inv(Next(s, JoinTimeout))
  {
    ForcingKeepsQueue(s.out, s.outLog);
    UnregisterKeeps(ForceOut(s));
  }

  lemma NextKeeps(s: State, e: Event)
    requires Inv(s)
    ensures Inv(Next(s, e))
  {
    match e
    case Push(decoded) => if s.session.registered && decoded.Some? { PushKeeps(s, decoded.value); }
    case HostExit => ExitKeeps(s);
    case Close => UnregisterKeeps(s);
    case Begin => if s.demux.Scheduled? && !s.session.registered { FinishKeeps(s); }
    case Get(emit) => if s.demux.Getting? && s.session.items != [] { GotKeeps(s, emit); }
    case Abort => if s.demux.Getting? || s.demux.Busy? { FinishKeeps(s); }
    case JoinTimeout => JoinTimeoutKeeps(s);
    case _ => OutletKeeps(s, e);
  }

  lemma {:induction false} ExecKeeps(s: State, es: seq<Event>)
    requires Inv(s)
    ensures Inv(Exec(s, es))
    decreases es
  {
    if es != [] {
      NextKeeps(s, es[0]);
      ExecKeeps(Next(s, es[0]), es[1..]);
    }
  }

  // ---------------------------------------------------------------------
  // What holds after every run
  // ---------------------------------------------------------------------

  /** Flow control never strands the host. */
  lemma FlowControl(es: seq<Event>)
    ensures var s := Exec(Opened, es);
            && |s.session.items| <= 256 && |s.out| <= 256
            && (s.session.paused ==> |s.session.items| > 64)
            && Alternating(s.signals)
            && (s.session.registered ==> (s.session.paused <==> s.signals != [] && s.signals[|s.signals| - 1]))
  {
    hide Exec, QueueInv;
    StartInv();
    ExecKeeps(Opened, es);
  }

  lemma StartInv()
    ensures Inv(Opened)
  {
  }

  /** A push that finds room in the session's queue. */
  predicate Accepts(s: State, e: Event) {
    e.Push? && e.decoded.Some? && s.session.registered && |s.session.items| < 256
  }

  /** A take that leaves the session open. */
  predicate TakesChunk(s: State, e: Event) {
    e.Get? && s.demux.Getting? && s.session.items != [] && s.session.items[0].Data?
  }

  /**
   After every run, when the next event signals the host. A pause is signalled by the accepted push that
   brings an unpaused session to 192 items, a resume by the take that brings a paused one down to 64, and
   nothing else is signalled, except that a session the host has already ended can be paused by a take.
   */
  lemma SignalledIff(es: seq<Event>, e: Event)
    ensures var s, t := Exec(Opened, es), Next(Exec(Opened, es), e);
            var size := |s.session.items|;
            && (t.signals == s.signals + [true] <==>
                  && s.session.registered && !s.session.paused
                  && (|| (Accepts(s, e) && size + 1 >= 192)
                      || (TakesChunk(s, e) && size - 1 >= 192 && HostExit in es)))
            && (t.signals == s.signals + [false] <==>
                  s.session.registered && s.session.paused && TakesChunk(s, e) && size - 1 <= 64)
            && (t.signals == s.signals || t.signals == s.signals + [true] || t.signals == s.signals + [false])
  {
    var s := Exec(Opened, es);
    UnpausedIsBelowHighWater(es);
    FlowControl(es);
    hide Exec, QueueInv, Exited, ForcedEof, Forcing;
    assert s.signals + [true] != s.signals && s.signals + [false] != s.signals && [true][0] != [false][0];
    assert (s.signals + [true])[|s.signals|] != (s.signals + [false])[|s.signals|];
  }

  /** A session that the host has not ended and that is not paused has 64 slots left for what is in flight. */
  lemma UnpausedIsBelowHighWater(es: seq<Event>)
    ensures var s := Exec(Opened, es).session;
            s.registered && !s.paused && HostExit !in es ==> |s.items| < 192
  {
    BelowHighWater(Opened, es);
  }

  lemma {:induction false} BelowHighWater(s: State, es: seq<Event>)
    requires s.session.registered && !s.session.paused ==> |s.session.items| < 192
    ensures var t := Exec(s, es).session;
            t.registered && !t.paused && HostExit !in es ==> |t.items| < 192
    decreases es
  {
    if es != [] && es[0] != HostExit {
      assert HostExit in es <==> HostExit in es[1..] by {
        assert es == [es[0]] + es[1..];
      }
      BelowHighWater(Next(s, es[0]), es[1..]);
    }
  }

  /** A demux that begins after its session was torn down takes nothing and ends the reader's stream at once. */
  lemma LateBegin(es: seq<Event>)
    requires Exec(Opened, es).demux.Scheduled?
    ensures var s, t := Exec(Opened, es), Next(Exec(Opened, es), Begin);
            if s.session.registered then t == s.(demux := Getting)
            else t.demux.Done? && Eof in t.out && t.outLog.closed && t.log.departed == s.log.departed && t.signals == s.signals
  {
    hide Exec;
    ForcedEnds(Exec(Opened, es).out);
  }

  /** Failed or cancelled at an await, the demux still ends the reader's stream and the session. */
  lemma AbortEnds(es: seq<Event>)
    ensures var s, t := Exec(Opened, es), Next(Exec(Opened, es), Abort);
            if s.demux.Getting? || s.demux.Busy?
            then t.demux.Done? && Eof in t.out && !t.session.registered && t.session.dropped == 0 && t.signals == s.signals
            else t == s
  {
    hide Exec;
    ForcedEnds(Exec(Opened, es).out);
  }

  lemma ForcedEnds(items: Buffer)
    ensures Eof in ForcedEof(items)
  {
    assert ForcedEof(items)[|ForcedEof(items)| - 1] == Eof;
  }

  /** What becomes of a chunk and of framed output: both queues take 256 items, and only a full one evicts. */
  lemma RoomIs256(es: seq<Event>, e: Event)
    ensures var s, t := Exec(Opened, es), Next(Exec(Opened, es), e);
            && (e.Push? && e.decoded.Some? && s.session.registered ==>
                  if |s.session.items| < 256
                  then t.session.items == s.session.items + [Data(e.decoded.value)] && t.drops == s.drops
                  else t.session.items == s.session.items && t.drops == s.drops + 1)
            && (e.Put? && s.demux.Busy? && s.demux.emit != [] ==>
                  if |s.out| < 256 then t.out == s.out + [Data(s.demux.emit)] && t.demux == Getting else t == s)
            && (e.HostExit? && s.session.registered ==>
                  t.session.items == (if |s.session.items| == 256 then s.session.items[1..] else s.session.items) + [Eof])
  {
  }

  function TakenBytes(departed: seq<Departure>): seq<Bytes> {
    if departed == [] then []
    else (if departed[0].Taken? then [departed[0].bytes] else []) + TakenBytes(departed[1..])
  }

  function Evictions(departed: seq<Departure>): nat {
    if departed == [] then 0 else (if departed[0].Evicted? then 1 else 0) + Evictions(departed[1..])
  }

  lemma {:induction false} DeparturesCount(departed: seq<Departure>)
    ensures |departed| == |TakenBytes(departed)| + Evictions(departed)
  {
    if departed != [] {
      DeparturesCount(departed[1..]);
    }
  }

  /** Chunks leave in push order, each taken or evicted once, and every push is accounted for. */
  lemma Conservation(es: seq<Event>)
    ensures var s := Exec(Opened, es);
            && BytesOf(s.log.departed) + DataOf(s.session.items) == s.log.accepted
            && BytesOf(s.outLog.departed) + DataOf(s.out) == s.outLog.accepted
            && s.pushes == |TakenBytes(s.log.departed)| + Evictions(s.log.departed)
                           + |DataOf(s.session.items)| + s.drops
            && (s.session.registered ==> s.drops == s.session.dropped)
  {
    ExecKeeps(Opened, es);
    var s := Exec(Opened, es);
    DeparturesCount(s.log.departed);
    assert |s.log.accepted| == |BytesOf(s.log.departed) + DataOf(s.session.items)|;
  }

  /** The events that end a session, each able to strike at any time and any number of times. */
  predicate Closing(e: Event) {
    e.HostExit? || e.Close? || e.JoinTimeout?
  }

  lemma NextCloses(s: State, e: Event)
    requires Inv(s) && (s.log.closed || Closing(e))
    ensures Next(s, e).log.closed
  {
  }

  lemma {:induction false} ClosedForGood(s: State, es: seq<Event>)
    requires Inv(s)
    requires s.log.closed || exists e :: e in es && Closing(e)
    ensures Exec(s, es).log.closed
    decreases es
  {
    if es != [] {
      NextKeeps(s, es[0]);
      if s.log.closed || Closing(es[0]) {
        NextCloses(s, es[0]);
      } else {
        assert es == [es[0]] + es[1..];
      }
      ClosedForGood(Next(s, es[0]), es[1..]);
    }
  }

  /**
   End of stream always reaches the consumers: once anything has closed the session, a demux
   that waits for an item finds one and the sentinel is there until it is taken; once the demux
   is done, the same holds for the stream reader.
   */
  lemma EofReachesConsumers(es: seq<Event>)
    ensures var s := Exec(Opened, es);
            && ((exists e :: e in es && Closing(e)) ==> s.log.ended || Eof in s.session.items)
            && ((exists e :: e in es && Closing(e)) && s.demux.Getting? ==> s.session.items != [])
            && (s.demux.Done? ==> !s.session.registered && (s.outLog.ended || Eof in s.out))
  {
    ExecKeeps(Opened, es);
    if exists e :: e in es && Closing(e) {
      ClosedForGood(Opened, es);
    }
  }

  /** Position of the first sentinel. */
  function FirstEof(items: seq<Item>): nat
    requires Eof in items
  {
    if items[0] == Eof then 0 else 1 + FirstEof(items[1..])
  }

  lemma {:induction false} FirstEofStays(items: seq<Item>, x: Item)
    requires Eof in items
    ensures FirstEof(items + [x]) == FirstEof(items)
  {
    if items[0] != Eof {
      FirstEofStays(items[1..], x);
      assert (items + [x])[1..] == items[1..] + [x];
    }
  }

  predicate TakesItem(s: State, e: Event) {
    e.Get? && s.demux.Getting? && s.session.items != []
  }

  /** How many items the demux takes during `es`. */
  function Gets(s: State, es: seq<Event>): nat
    decreases es
  {
    if es == [] then 0 else (if TakesItem(s, es[0]) then 1 else 0) + Gets(Next(s, es[0]), es[1..])
  }

  /** Nothing here closes the session again or kills its demux. */
  ghost predicate Undisturbed(es: seq<Event>) {
    forall e :: e in es ==> !Closing(e) && !e.Abort?
  }

  lemma StepTowardsSentinel(s: State, e: Event)
    requires Inv(s) && Eof in s.session.items && (s.demux.Getting? || s.demux.Busy?)
    requires !Closing(e) && !e.Abort? && !(TakesItem(s, e) && s.session.items[0] == Eof)
    ensures var t := Next(s, e);
            && (t.demux.Getting? || t.demux.Busy?) && Eof in t.session.items
            && FirstEof(t.session.items) == FirstEof(s.session.items) - (if TakesItem(s, e) then 1 else 0)
  {
    var t := Next(s, e);
    if e.Push? && t.session.items != s.session.items {
      FirstEofStays(s.session.items, Data(e.decoded.value));
    } else if TakesItem(s, e) {
      assert t.session.items == s.session.items[1..];
    } else {
      assert t.session.items == s.session.items;
    }
  }

  /** With the session closed, the demux stops after exactly the items before the first sentinel. */
  lemma {:induction false} StopsAtFirstSentinel(s: State, es: seq<Event>)
    requires Inv(s) && Eof in s.session.items && (s.demux.Getting? || s.demux.Busy?) && Undisturbed(es)
    ensures Gets(s, es) <= FirstEof(s.session.items) + 1
    ensures Exec(s, es).log.ended <==> Gets(s, es) == FirstEof(s.session.items) + 1
    decreases es
  {
    if es != [] {
      var e, rest := es[0], es[1..];
      assert e in es && forall x :: x in rest ==> x in es;
      NextKeeps(s, e);
      var t := Next(s, e);
      if TakesItem(s, e) && s.session.items[0] == Eof {
        DoneStays(t, rest);
      } else {
        StepTowardsSentinel(s, e);
        StopsAtFirstSentinel(t, rest);
      }
    }
  }

  lemma {:induction false} DoneStays(s: State, es: seq<Event>)
    requires s.demux.Done? && s.log.ended
    ensures Gets(s, es) == 0 && Exec(s, es).log.ended
    decreases es
  {
    if es != [] {
      DoneStays(Next(s, es[0]), es[1..]);
    }
  }

  /** A run in which only the consumers move. */
  ghost predicate Draining(es: seq<Event>) {
    forall e :: e in es ==> e.Get? || e.Put? || e.Read?
  }

  lemma DrainStep(s: State, e: Event)
    requires Inv(s) && s.session.paused && (s.demux.Getting? || s.demux.Busy?)
    requires e.Get? || e.Put? || e.Read?
    requires s.session.items[0].Data?
    ensures var t, n := Next(s, e), if TakesItem(s, e) then 1 else 0;
            && Inv(t) && (t.demux.Getting? || t.demux.Busy?)
            && t.session.items == s.session.items[n..]
            && (t.session.paused <==> |t.session.items| > LOW_WATER)
            && t.signals == s.signals + if t.session.paused then [] else [false]
  {
    NextKeeps(s, e);
  }

  /** A paused session is resumed by the very take that brings it to the low-water mark. */
  lemma {:induction false} DrainResumes(s: State, es: seq<Event>)
    requires Inv(s) && s.session.paused && (s.demux.Getting? || s.demux.Busy?) && Draining(es)
    requires forall i :: 0 <= i < |s.session.items| - 64 ==> s.session.items[i].Data?
    requires Gets(s, es) <= |s.session.items| - 64
    ensures Exec(s, es).session.paused <==> Gets(s, es) < |s.session.items| - 64
    ensures Exec(s, es).signals == s.signals + if Exec(s, es).session.paused then [] else [false]
    decreases es
  {
    if es != [] {
      var e, rest := es[0], es[1..];
      assert e in es && forall x :: x in rest ==> x in es;
      DrainStep(s, e);
      var t := Next(s, e);
      if t.session.paused {
        DrainResumes(t, rest);
      } else {
        NoGetsNoFlow(t, rest);
      }
    }
  }

  lemma {:induction false} NoGetsNoFlow(s: State, es: seq<Event>)
    requires Draining(es) && Gets(s, es) == 0
    ensures Exec(s, es).session == s.session && Exec(s, es).signals == s.signals
    decreases es
  {
    if es != [] {
      assert es[0] in es && forall x :: x in es[1..] ==> x in es;
      NoGetsNoFlow(Next(s, es[0]), es[1..]);
    }
  }
}
