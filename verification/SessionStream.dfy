/**
 The interactive session end to end: the demux task frames the chunks it takes, and what the stream
 reader gets is the framing of those chunks, in order, with only what a forced end evicts missing.
 */
module SessionStream {
  import opened Prelude
  import opened SessionQueues
  import opened SessionPipeline
  import F = CommandBoundary

  /** What the framer has made of the chunks the demux has taken so far. */
  function Framed(m: Bytes, s: State): F.Frame {
    F.Feed(m, TakenBytes(s.log.departed))
  }

  /** What the framer puts out for one more chunk. */
  function EmitFor(m: Bytes, s: State, chunk: Bytes): Bytes {
    F.Drain(m, Framed(m, s).rest + chunk).emit
  }

  /** The demux hands on exactly what its framer puts out. */
  predicate FramesStep(m: Bytes, s: State, e: Event) {
    TakesItem(s, e) && s.session.items[0].Data? ==> e.emit == EmitFor(m, s, s.session.items[0].bytes)
  }

  ghost predicate Frames(m: Bytes, s: State, es: seq<Event>)
    decreases es
  {
    es != [] ==> FramesStep(m, s, es[0]) && Frames(m, Next(s, es[0]), es[1..])
  }

  function Joined(chunks: seq<Bytes>): Bytes {
    if chunks == [] then [] else Joined(chunks[..|chunks| - 1]) + chunks[|chunks| - 1]
  }

  /** All framed output so far: handed to the reader's queue, or about to be. */
  function Output(s: State): Bytes {
    Joined(s.outLog.accepted) + if s.demux.Busy? then s.demux.emit else []
  }

  /** While the demux lives nothing framed is lost; killed while handing on, it loses that last piece. */
  ghost predicate StreamInv(m: Bytes, s: State) {
    && Output(s) <= Framed(m, s).emit
    && (!s.demux.Done? ==> Output(s) == Framed(m, s).emit)
  }

  lemma {:induction false} TakenSnoc(departed: seq<Departure>, d: Departure)
    ensures TakenBytes(departed + [d]) == TakenBytes(departed) + if d.Taken? then [d.bytes] else []
  {
    if departed == [] {
      assert departed + [d] == [d] && [d][1..] == [];
      assert TakenBytes([]) == [];
    } else {
      TakenSnoc(departed[1..], d);
      TakenCons(departed);
      assert departed + [d] == [departed[0]] + (departed[1..] + [d]);
      TakenCons(departed + [d]);
      hide TakenBytes;
      assert (departed + [d])[1..] == departed[1..] + [d];
    }
  }

  lemma TakenCons(departed: seq<Departure>)
    requires departed != []
    ensures TakenBytes(departed)
         == (if departed[0].Taken? then [departed[0].bytes] else []) + TakenBytes(departed[1..])
  {
  }

  /** Forcing the end evicts chunks but takes none. */
  lemma ForcingTakesNothing(log: Log, items: Buffer)
    ensures TakenBytes(Forcing(log, items).departed) == TakenBytes(log.departed)
    ensures Forcing(log, items).accepted == log.accepted
  {
    var out := ForcedOut(items);
    if out == [] {
      assert log.departed + out == log.departed;
    } else {
      TakenSnoc(log.departed, out[0]);
      assert TakenBytes(log.departed) + [] == TakenBytes(log.departed);
    }
  }

  lemma JoinedSnoc(chunks: seq<Bytes>, chunk: Bytes)
    ensures Joined(chunks + [chunk]) == Joined(chunks) + chunk
  {
    assert (chunks + [chunk])[..|chunks|] == chunks;
  }

  lemma FeedSnoc(m: Bytes, chunks: seq<Bytes>, chunk: Bytes)
    ensures var f := F.Feed(m, chunks);
            F.Feed(m, chunks + [chunk]).emit == f.emit + F.Drain(m, f.rest + chunk).emit
  {
    hide F.Drain;
    assert (chunks + [chunk])[..|chunks|] == chunks;
  }

  /** Taking one item: a chunk is framed, the sentinel ends the task. */
  lemma GetKeeps(m: Bytes, s: State, emit: Bytes)
    requires StreamInv(m, s) && TakesItem(s, Get(emit)) && FramesStep(m, s, Get(emit))
    ensures StreamInv(m, Next(s, Get(emit)))
  {
    hide F.Feed, F.Drain, TakenBytes, Joined;
    var item := s.session.items[0];
    var t := s.(session := s.session.(items := s.session.items[1..]), log := Taking(s.log, item));
    assert Joined(s.outLog.accepted) + [] == Joined(s.outLog.accepted);
    match item
    case Eof =>
      ForcingTakesNothing(t.outLog, t.out);
      ForcingTakesNothing(t.log, t.session.items);
    case Data(chunk) =>
      TakenSnoc(s.log.departed, Taken(chunk));
      FeedSnoc(m, TakenBytes(s.log.departed), chunk);
  }

  /** Handing framed output to the reader's queue. */
  lemma PutKeeps(m: Bytes, s: State)
    requires StreamInv(m, s)
    ensures StreamInv(m, Next(s, Put))
  {
    hide F.Feed, F.Drain, TakenBytes, Joined;
    if s.demux.Busy? {
      assert Joined(s.outLog.accepted) + [] == Joined(s.outLog.accepted);
      JoinedSnoc(s.outLog.accepted, s.demux.emit);
      assert (Joined(s.outLog.accepted) + s.demux.emit) + [] == Joined(s.outLog.accepted) + s.demux.emit;
    }
  }

  /** Every way of ending, on either side: nothing is framed and nothing new is put out. */
  lemma EndingKeeps(m: Bytes, s: State, e: Event)
    requires StreamInv(m, s) && (e.HostExit? || e.Close? || e.Begin? || e.Abort? || e.JoinTimeout?)
    ensures StreamInv(m, Next(s, e))
  {
    hide F.Feed, F.Drain, TakenBytes, Joined;
    ForcingTakesNothing(s.log, s.session.items);
    ForcingTakesNothing(s.outLog, s.out);
    assert Joined(s.outLog.accepted) + [] == Joined(s.outLog.accepted);
  }

  lemma StepKeeps(m: Bytes, s: State, e: Event)
    requires StreamInv(m, s) && FramesStep(m, s, e)
    ensures StreamInv(m, Next(s, e))
  {
    hide StreamInv;
    match e
    case Get(emit) => if TakesItem(s, e) { GetKeeps(m, s, emit); }
    case Put => PutKeeps(m, s);
    case Push(_) => PushKeepsStream(m, s, e);
    case Read => ReadKeepsStream(m, s);
    case _ => EndingKeeps(m, s, e);
  }

  lemma PushKeepsStream(m: Bytes, s: State, e: Event)
    requires StreamInv(m, s) && e.Push?
    ensures StreamInv(m, Next(s, e))
  {
    hide F.Feed, F.Drain, TakenBytes, Joined;
  }

  lemma ReadKeepsStream(m: Bytes, s: State)
    requires StreamInv(m, s)
    ensures StreamInv(m, Next(s, Read))
  {
    hide F.Feed, F.Drain, TakenBytes, Joined;
  }

  /** The event kills the demux while it is handing on framed output. */
  predicate Kills(s: State, e: Event) {
    e.Abort? && s.demux.Busy? && s.demux.emit != []
  }

  ghost predicate Killed(s: State, es: seq<Event>)
    decreases es
  {
    es != [] && (Kills(s, es[0]) || Killed(Next(s, es[0]), es[1..]))
  }

  /** All framed output has been put out. */
  predicate Lossless(m: Bytes, s: State) {
    Output(s) == Framed(m, s).emit
  }

  /** Once the demux is done, nothing is framed or put out any more. */
  lemma DoneIsStill(m: Bytes, s: State, e: Event)
    requires s.demux.Done?
    ensures var t := Next(s, e);
            t.demux.Done? && Output(t) == Output(s) && Framed(m, t) == Framed(m, s)
  {
    hide F.Feed, F.Drain, TakenBytes, Joined;
    ForcingTakesNothing(s.log, s.session.items);
    ForcingTakesNothing(s.outLog, s.out);
  }

  /** A kill loses a piece of output; no other way of ending does. */
  lemma AbortLosesIff(m: Bytes, s: State)
    requires StreamInv(m, s) && !s.demux.Done?
    ensures Lossless(m, Next(s, Abort)) <==> !Kills(s, Abort)
  {
    hide F.Feed, F.Drain, TakenBytes, Joined;
    ForcingTakesNothing(s.log, s.session.items);
    ForcingTakesNothing(s.outLog, s.out);
    assert Joined(s.outLog.accepted) + [] == Joined(s.outLog.accepted);
    if Kills(s, Abort) {
      assert |Output(Next(s, Abort))| < |Output(s)|;
    }
  }

  lemma EndedIsLossless(m: Bytes, s: State, e: Event)
    requires StreamInv(m, s) && !s.demux.Done? && FramesStep(m, s, e) && !e.Abort?
    ensures Lossless(m, Next(s, e))
  {
    hide F.Feed, F.Drain, TakenBytes, Joined;
    StepKeeps(m, s, e);
    if Next(s, e).demux.Done? {
      if e.Get? {
        EofIsLossless(m, s, e.emit);
      } else {
        ForcingTakesNothing(s.log, s.session.items);
        ForcingTakesNothing(s.outLog, s.out);
        assert Joined(s.outLog.accepted) + [] == Joined(s.outLog.accepted);
      }
    }
  }

  lemma EofIsLossless(m: Bytes, s: State, emit: Bytes)
    requires StreamInv(m, s) && TakesItem(s, Get(emit)) && s.session.items[0].Eof?
    ensures Lossless(m, Next(s, Get(emit)))
  {
    hide F.Feed, F.Drain, TakenBytes, Joined;
    var t := s.(session := s.session.(items := s.session.items[1..]), log := Taking(s.log, Eof));
    ForcingTakesNothing(t.outLog, t.out);
    ForcingTakesNothing(t.log, t.session.items);
    assert Joined(s.outLog.accepted) + [] == Joined(s.outLog.accepted);
  }

  /** One event loses output if and only if it is a kill. */
  lemma StepLosesIff(m: Bytes, s: State, e: Event)
    requires StreamInv(m, s) && FramesStep(m, s, e)
    ensures StreamInv(m, Next(s, e))
    ensures Lossless(m, Next(s, e)) <==> Lossless(m, s) && !Kills(s, e)
  {
    StepKeeps(m, s, e);
    hide Next, FramesStep, Output, Framed;
    if s.demux.Done? {
      DoneIsStill(m, s, e);
    } else if e.Abort? {
      AbortLosesIff(m, s);
    } else {
      EndedIsLossless(m, s, e);
    }
  }

  lemma {:induction false} RunLosesIff(m: Bytes, s: State, es: seq<Event>)
    requires StreamInv(m, s) && Frames(m, s, es)
    ensures StreamInv(m, Exec(s, es))
    ensures Lossless(m, Exec(s, es)) <==> Lossless(m, s) && !Killed(s, es)
    decreases es
  {
    hide StreamInv, Next, FramesStep, Lossless, Kills;
    if es != [] {
      StepLosesIff(m, s, es[0]);
      RunLosesIff(m, Next(s, es[0]), es[1..]);
    }
  }

  lemma StreamStart(m: Bytes)
    ensures StreamInv(m, Opened) && Lossless(m, Opened)
  {
  }

  /**
   End to end, over every run: what has been handed to the stream reader is a prefix of the framing of
   the chunks taken, and all of it if and only if the demux was not killed while handing on output; the
   reader and a forced end split it in order.
   */
  lemma ReaderGetsTheFraming(m: Bytes, es: seq<Event>)
    requires Frames(m, Opened, es)
    ensures var s := Exec(Opened, es);
            && Output(s) <= Framed(m, s).emit
            && (Output(s) == Framed(m, s).emit <==> !Killed(Opened, es))
            && BytesOf(s.outLog.departed) + DataOf(s.out) == s.outLog.accepted
  {
    StreamStart(m);
    RunLosesIff(m, Opened, es);
    Conservation(es);
  }

  /**
   In terms of the stream the host cut into chunks: unless the demux was killed, what is handed on is that
   stream framed as a whole, with every sentinel that a boundary cuts inside its code left as it stands.
   */
  lemma ReaderGetsTheStream(m: Bytes, es: seq<Event>)
    requires Frames(m, Opened, es) && F.ValidMarker(m)
    ensures var s := Exec(Opened, es);
            var cs := TakenBytes(s.log.departed);
            Output(s) == F.DrainCut(m, F.Concat(cs), F.Boundaries(cs)).emit <==> !Killed(Opened, es)
  {
    hide F.DrainCut, F.Feed, Output, Killed, Exec;
    ReaderGetsTheFraming(m, es);
    F.ChunkedIsCutFraming(m, TakenBytes(Exec(Opened, es).log.departed));
  }

  /** With no boundary inside a code, how the host cut the stream makes no difference. */
  lemma ChunkingIsInvisible(m: Bytes, es: seq<Event>)
    requires Frames(m, Opened, es) && F.ValidMarker(m) && !Killed(Opened, es)
    requires F.CodeCuts(m, TakenBytes(Exec(Opened, es).log.departed)) == 0
    ensures var s := Exec(Opened, es);
            Output(s) == F.Drain(m, F.Concat(TakenBytes(s.log.departed))).emit
  {
    ReaderGetsTheFraming(m, es);
    F.ChunkedFraming(m, TakenBytes(Exec(Opened, es).log.departed));
  }
}
