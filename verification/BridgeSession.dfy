/**
 The event-loop side of one interactive session: the demux task and the outbound queue its stream
 reader consumes. Each method is one block between two awaits, and moves the objects exactly as
 the corresponding event of module SessionPipeline moves the abstract state.
 */
module BridgeSessions {
  import opened Prelude
  import opened SessionQueues
  import P = SessionPipeline

  class BridgeSession {
    const table: SessionTable
    const sid: string
    const ref: string
    const inbound: BoundedQueue     // the object a registered session's queue keeps for life
    const outbound: BoundedQueue
    var demux: P.Demux

    constructor (table: SessionTable, sid: string, ref: string, inbound: BoundedQueue)
      requires table.Valid() && inbound in table.pool
      ensures this.table == table && this.sid == sid && this.ref == ref && this.inbound == inbound
      ensures fresh(outbound) && outbound.items == [] && demux == P.Scheduled
    {
      this.table, this.sid, this.ref, this.inbound := table, sid, ref, inbound;
      outbound := new BoundedQueue("", "");
      demux := P.Scheduled;
    }

    ghost predicate Valid()
      reads this, table
    {
      && table.Valid()
      && outbound !in table.pool && inbound in table.pool
      && (ref in table.queues ==> table.queues[ref] == inbound)
    }

    /** The objects stand for the session, outbound queue and demux phase of `s`. */
    ghost predicate Shows(s: P.State)
      reads this, table, inbound, outbound
    {
      s.session == table.View(ref, inbound) && s.out == outbound.items && s.demux == demux
    }

    /** `finally`: the outbound sentinel and the manager's bookkeeping, on every way out. */
    method Finish(ghost s: P.State) returns (ghost t: P.State)
      requires Valid() && Shows(s)
      modifies this, table, inbound, outbound
      ensures Valid() && t == P.Finish(s) && Shows(t)
    {
      outbound.ForceEof();
      table.Unregister(sid, ref);
      demux := P.Done;
      t := P.Finish(s);
    }

    /** The first block of the demux task. */
    method Begin(ghost s: P.State) returns (ghost t: P.State)
      requires Valid() && Shows(s) && demux.Scheduled?
      modifies this, table, inbound, outbound
      ensures Valid() && t == P.Next(s, P.Begin) && Shows(t)
    {
      if ref !in table.queues {
        t := Finish(s);
        return;
      }
      demux := P.Getting;
      t := P.Next(s, P.Begin);
    }

    /** One item: end of stream finishes the task; a chunk triggers the drain check and is framed. */
    method Take(ghost s: P.State, emit: Bytes) returns (flow: Option<bool>, ghost t: P.State)
      requires Valid() && Shows(s) && demux.Getting? && inbound.items != []
      modifies this, table, inbound, outbound
      ensures Valid() && t == P.Next(s, P.Get(emit)) && Shows(t)
      ensures t.signals == s.signals + match flow case None => [] case Some(p) => [p]
    {
      var item := inbound.GetNowait();
      ghost var taken := s.(session := s.session.(items := s.session.items[1..]),
                            log := P.Taking(s.log, s.session.items[0]));
      assert s.signals + [] == s.signals;
      if item == Some(Eof) {
        t := Finish(taken);
        return None, t;
      }
      flow := table.UpdateFlowState(ref);
      demux := P.Busy(emit);
      t := P.Checked(taken).(demux := P.Busy(emit));
    }

    /** Hand the framed output on; with a full outbound queue the task stays suspended. */
    method Put(ghost s: P.State) returns (ghost t: P.State)
      requires Valid() && Shows(s) && demux.Busy?
      modifies this, outbound
      ensures Valid() && t == P.Next(s, P.Put) && Shows(t)
    {
      t := P.Next(s, P.Put);
      if demux.emit == [] {
        demux := P.Getting;
        return;
      }
      var ok := outbound.PutNowait(Data(demux.emit));
      if ok {
        demux := P.Getting;
      }
    }
  }
}
