/**
 The disconnect path of the connection manager across all its tables: the routes of the socket,
 and for every id it owned the flood-guard bucket, the suspended waiters and the open sessions.
 */
module ConnectionManagers {
  import opened Prelude
  import G = InboundGuard
  import R = Routing
  import S = SessionQueues
  import W = Waiters
  import T = WaiterTables

  /** Some of the ids lists the waiter among its in-flight requests. */
  ghost predicate ListedByAny(pending: W.Pending, ids: set<string>, k: W.Key) {
    exists cid :: cid in ids && T.Listed(pending, cid, k)
  }

  /** Some of the ids has the session among its open ones. */
  ghost predicate OpenForAny(pending: S.Pending, ids: set<string>, ref: string) {
    exists cid :: cid in ids && ref in S.PendingOf(pending, cid)
  }

  /** Some of the ids lists the request of the bridge. */
  ghost predicate BridgedByAny(pending: W.Pending, ids: set<string>, id: W.Id) {
    exists cid :: cid in ids && id in W.PendingOf(pending, W.Devcontainer, cid)
  }

  lemma BridgedByMore(pending: W.Pending, ids: set<string>, cid: string, id: W.Id)
    ensures BridgedByAny(pending, ids + {cid}, id)
       <==> BridgedByAny(pending, ids, id) || id in W.PendingOf(pending, W.Devcontainer, cid)
  {
    if id in W.PendingOf(pending, W.Devcontainer, cid) {
      assert cid in ids + {cid};
    }
  }

  /** Exactly the entries of the listed waiters are gone. */
  ghost predicate WaitersDropped<V>(before: map<W.Key, V>, after: map<W.Key, V>, pending: W.Pending, ids: set<string>) {
    forall k :: (k in after <==> k in before && !ListedByAny(pending, ids, k)) && (k in after ==> after[k] == before[k])
  }

  ghost predicate BuffersDropped(before: map<W.Id, W.Buffers>, after: map<W.Id, W.Buffers>,
                                 pending: W.Pending, ids: set<string>) {
    forall id ::
      && (id in after <==> id in before && !BridgedByAny(pending, ids, id))
      && (id in after ==> after[id] == before[id])
  }

  /** Exactly the reverse indexes of the ids are gone. */
  ghost predicate PendingDropped(before: W.Pending, after: W.Pending, ids: set<string>) {
    forall p :: (p in after <==> p in before && p.1 !in ids) && (p in after ==> after[p] == before[p])
  }

  /** Exactly the entries of the sessions open for the ids are gone. */
  ghost predicate SessionsDropped<V>(before: map<string, V>, after: map<string, V>, pending: S.Pending, ids: set<string>) {
    forall r :: (r in after <==> r in before && !OpenForAny(pending, ids, r)) && (r in after ==> after[r] == before[r])
  }

  lemma ListedByMore(pending: W.Pending, ids: set<string>, cid: string, k: W.Key)
    ensures ListedByAny(pending, ids + {cid}, k) <==> ListedByAny(pending, ids, k) || T.Listed(pending, cid, k)
  {
    if T.Listed(pending, cid, k) {
      assert cid in ids + {cid};
    }
  }

  lemma OpenForMore(pending: S.Pending, ids: set<string>, cid: string, ref: string)
    ensures OpenForAny(pending, ids + {cid}, ref) <==> OpenForAny(pending, ids, ref) || ref in S.PendingOf(pending, cid)
  {
    if ref in S.PendingOf(pending, cid) {
      assert cid in ids + {cid};
    }
  }

  class ConnectionManager {
    const routing: R.RoutingTable
    const guard: G.RateLimiter
    const waiters: T.WaiterTable
    const sessions: S.SessionTable

    constructor ()
      ensures Valid() && fresh(routing) && fresh(guard) && fresh(waiters) && fresh(sessions)
      ensures waiters.pool == {} && sessions.pool == {}
      ensures routing.Table() == R.Routes(map[], map[]) && guard.Buckets() == map[]
      ensures waiters.events == map[] && waiters.results == map[] && waiters.buffers == map[] && waiters.pending == map[]
      ensures sessions.queues == map[] && sessions.pending == map[]
    {
      routing := new R.RoutingTable();
      guard := new G.RateLimiter();
      waiters := new T.WaiterTable();
      sessions := new S.SessionTable();
    }

    ghost predicate Valid()
      reads guard, waiters, sessions
    {
      guard.Valid() && waiters.Valid() && sessions.Valid()
    }

    /** Drop the buckets of `ids`. */
    method ReapBuckets(ids: set<string>)
      requires guard.Valid()
      modifies guard
      ensures guard.Valid() && guard.Buckets() == old(guard.Buckets()) - ids
    {
      var rest := ids;
      while rest != {}
        invariant guard.Valid() && rest <= ids
        invariant guard.Buckets() == old(guard.Buckets()) - (ids - rest)
        decreases rest
      {
        var cid :| cid in rest;
        guard.Drop(cid);
        rest := rest - {cid};
      }
      assert ids - rest == ids;
    }

    /** Wake every waiter listed under one of `ids`, with all its entries gone; no other waiter notices. */
    method ReapWaiters(ids: set<string>)
      requires waiters.Valid()
      modifies waiters, waiters.pool
      ensures waiters.Valid() && waiters.pool == old(waiters.pool)
      ensures WaitersDropped(old(waiters.events), waiters.events, old(waiters.pending), ids)
      ensures WaitersDropped(old(waiters.results), waiters.results, old(waiters.pending), ids)
      ensures BuffersDropped(old(waiters.buffers), waiters.buffers, old(waiters.pending), ids)
      ensures PendingDropped(old(waiters.pending), waiters.pending, ids)
      ensures forall k :: k in old(waiters.events) ==>
        old(waiters.events[k]).flag == (old(waiters.events[k].flag) || ListedByAny(old(waiters.pending), ids, k))
      ensures forall e :: e in waiters.pool && !old(waiters.Holds(e)) ==> e.flag == old(e.flag)
    {
      var rest := ids;
      ghost var done: set<string>, p0, e0 := {}, waiters.pending, waiters.events;
      while rest != {}
        invariant waiters.Valid() && waiters.pool == old(waiters.pool)
        invariant done !! rest && done + rest == ids
        invariant PendingDropped(p0, waiters.pending, done)
        invariant WaitersDropped(e0, waiters.events, p0, done)
        invariant WaitersDropped(old(waiters.results), waiters.results, p0, done)
        invariant BuffersDropped(old(waiters.buffers), waiters.buffers, p0, done)
        invariant forall k :: k in e0 ==> e0[k].flag == (old(e0[k].flag) || ListedByAny(p0, done, k))
        invariant forall e :: e in waiters.pool && !old(waiters.Holds(e)) ==> e.flag == old(e.flag)
        decreases rest
      {
        var cid :| cid in rest;
        ReapedOneMore(p0, waiters.pending, done, cid);
        hide ListedByAny, BridgedByAny, T.Listed, W.PendingOf, WaitersDropped, BuffersDropped, PendingDropped;
        ghost var events, results, buffers, pending := waiters.events, waiters.results, waiters.buffers, waiters.pending;
        waiters.ReapWaiters(cid);
        WaitersDroppedMore(e0, events, waiters.events, p0, done, cid);
        WaitersDroppedMore(old(waiters.results), results, waiters.results, p0, done, cid);
        BuffersDroppedMore(old(waiters.buffers), buffers, waiters.buffers, p0, done, cid);
        PendingDroppedMore(p0, pending, waiters.pending, done, cid);
        done, rest := done + {cid}, rest - {cid};
      }
      assert done == ids;
    }

    /** Close every session open for one of `ids`; no other session notices. */
    method ReapSessions(ids: set<string>)
      requires sessions.Valid()
      modifies sessions, sessions.pool
      ensures sessions.Valid()
      ensures SessionsDropped(old(sessions.queues), sessions.queues, old(sessions.pending), ids)
      ensures SessionsDropped(old(sessions.droppedChunks), sessions.droppedChunks, old(sessions.pending), ids)
      ensures SessionsDropped(old(sessions.exits), sessions.exits, old(sessions.pending), ids)
      ensures forall r :: r in sessions.paused <==> r in old(sessions.paused) && !OpenForAny(old(sessions.pending), ids, r)
      ensures sessions.pending == old(sessions.pending) - ids
      ensures forall r :: r in sessions.queues ==> sessions.queues[r].client !in ids
      ensures forall r :: r in old(sessions.queues) ==>
        old(sessions.queues)[r].items == if OpenForAny(old(sessions.pending), ids, r)
                                         then S.ForcedEof(old(sessions.queues[r].items)) else old(sessions.queues[r].items)
    {
      var rest := ids;
      ghost var done: set<string>, p0, q0 := {}, sessions.pending, sessions.queues;
      while rest != {}
        invariant sessions.Valid() && sessions.pool == old(sessions.pool)
        invariant done !! rest && done + rest == ids
        invariant sessions.pending == p0 - done
        invariant SessionsDropped(q0, sessions.queues, p0, done)
        invariant SessionsDropped(old(sessions.droppedChunks), sessions.droppedChunks, p0, done)
        invariant SessionsDropped(old(sessions.exits), sessions.exits, p0, done)
        invariant forall r :: r in sessions.paused <==> r in old(sessions.paused) && !OpenForAny(p0, done, r)
        invariant forall r :: r in q0 ==>
          q0[r].items == if OpenForAny(p0, done, r) then S.ForcedEof(old(q0[r].items)) else old(q0[r].items)
        decreases rest
      {
        var cid :| cid in rest;
        assert S.PendingOf(sessions.pending, cid) == S.PendingOf(p0, cid);
        forall r
          ensures OpenForAny(p0, done + {cid}, r) <==> OpenForAny(p0, done, r) || r in S.PendingOf(p0, cid)
        {
          OpenForMore(p0, done, cid, r);
        }
        hide OpenForAny, SessionsDropped, S.PendingOf, S.ForcedEof;
        ghost var queues, dropped, exits := sessions.queues, sessions.droppedChunks, sessions.exits;
        sessions.ReapSessions(cid);
        SessionsDroppedMore(q0, queues, sessions.queues, p0, done, cid);
        SessionsDroppedMore(old(sessions.droppedChunks), dropped, sessions.droppedChunks, p0, done, cid);
        SessionsDroppedMore(old(sessions.exits), exits, sessions.exits, p0, done, cid);
        S.RemoveTwice(p0, done, cid);
        done, rest := done + {cid}, rest - {cid};
      }
      assert done == ids;
      S.ClientsAreIndexed(sessions.pending, sessions.queues);
    }

    /**
     A close: a stale one changes nothing; any other one removes the socket's routes, wakes every waiter
     of an owned id and ends every session of one, and leaves the state of all other ids alone.
     */
    method Disconnect(conn: string, closed: Option<R.Socket>)
      requires Valid()
      modifies routing, guard, waiters, waiters.pool, sessions, sessions.pool
      ensures Valid()
      ensures routing.Table() == R.Next(old(routing.Table()), R.Disconnect(conn, closed))
      ensures var owned := OwnedIds(old(routing.Table()), conn, closed);
              && guard.Buckets() == old(guard.Buckets()) - owned
              && WaitersDropped(old(waiters.events), waiters.events, old(waiters.pending), owned)
              && WaitersDropped(old(waiters.results), waiters.results, old(waiters.pending), owned)
              && BuffersDropped(old(waiters.buffers), waiters.buffers, old(waiters.pending), owned)
              && PendingDropped(old(waiters.pending), waiters.pending, owned)
              && (forall k :: k in old(waiters.events) ==>
                    old(waiters.events[k]).flag
                    == (old(waiters.events[k].flag) || ListedByAny(old(waiters.pending), owned, k)))
              && (forall e :: e in old(waiters.pool) && !old(waiters.Holds(e)) ==> e.flag == old(e.flag))
              && SessionsDropped(old(sessions.queues), sessions.queues, old(sessions.pending), owned)
              && SessionsDropped(old(sessions.droppedChunks), sessions.droppedChunks, old(sessions.pending), owned)
              && SessionsDropped(old(sessions.exits), sessions.exits, old(sessions.pending), owned)
              && (forall r :: r in sessions.paused <==>
                    r in old(sessions.paused) && !OpenForAny(old(sessions.pending), owned, r))
              && sessions.pending == old(sessions.pending) - owned
              && (forall r :: r in sessions.queues ==> sessions.queues[r].client !in owned)
              && (forall r :: r in old(sessions.queues) ==>
                    old(sessions.queues)[r].items
                    == if OpenForAny(old(sessions.pending), owned, r)
                       then S.ForcedEof(old(sessions.queues[r].items)) else old(sessions.queues[r].items))
    {
      hide ListedByAny, OpenForAny, BridgedByAny, R.Next, R.Closed;
      hide WaitersDropped, BuffersDropped, PendingDropped, SessionsDropped;
      var owned := routing.Disconnect(conn, closed);
      ReapBuckets(owned);
      ReapWaiters(owned);
      ReapSessions(owned);
    }
  }

  /** The ids a close reaps. */
  function OwnedIds(r: R.Routes, conn: string, closed: Option<R.Socket>): set<string> {
    if R.Stale(r, conn, closed) then {} else R.Owned(r, conn)
  }

  lemma WaitersDroppedMore<V>(before: map<W.Key, V>, between: map<W.Key, V>, after: map<W.Key, V>,
                              p0: W.Pending, done: set<string>, cid: string)
    requires WaitersDropped(before, between, p0, done)
    requires forall k :: (k in after <==> k in between && !T.Listed(p0, cid, k)) && (k in after ==> after[k] == between[k])
    ensures WaitersDropped(before, after, p0, done + {cid})
  {
    forall k
      ensures ListedByAny(p0, done + {cid}, k) <==> ListedByAny(p0, done, k) || T.Listed(p0, cid, k)
    {
      ListedByMore(p0, done, cid, k);
    }
    hide ListedByAny, T.Listed;
  }

  lemma BuffersDroppedMore(before: map<W.Id, W.Buffers>, between: map<W.Id, W.Buffers>, after: map<W.Id, W.Buffers>,
                           p0: W.Pending, done: set<string>, cid: string)
    requires BuffersDropped(before, between, p0, done)
    requires after == between - W.PendingOf(p0, W.Devcontainer, cid)
    ensures BuffersDropped(before, after, p0, done + {cid})
  {
    forall id
      ensures BridgedByAny(p0, done + {cid}, id)
         <==> BridgedByAny(p0, done, id) || id in W.PendingOf(p0, W.Devcontainer, cid)
    {
      BridgedByMore(p0, done, cid, id);
    }
    hide BridgedByAny, W.PendingOf;
  }

  lemma SessionsDroppedMore<V>(before: map<string, V>, between: map<string, V>, after: map<string, V>,
                               p0: S.Pending, done: set<string>, cid: string)
    requires SessionsDropped(before, between, p0, done)
    requires after == between - S.PendingOf(p0, cid)
    ensures SessionsDropped(before, after, p0, done + {cid})
  {
    forall r
      ensures OpenForAny(p0, done + {cid}, r) <==> OpenForAny(p0, done, r) || r in S.PendingOf(p0, cid)
    {
      OpenForMore(p0, done, cid, r);
    }
    hide OpenForAny, S.PendingOf;
  }

  lemma PendingDroppedMore(before: W.Pending, between: W.Pending, after: W.Pending, done: set<string>, cid: string)
    requires PendingDropped(before, between, done)
    requires after == between - {(W.Approvals, cid), (W.Acks, cid), (W.Devcontainer, cid)}
    ensures PendingDropped(before, after, done + {cid})
  {
    forall p: (W.Index, W.SessionId)
      ensures p in {(W.Approvals, cid), (W.Acks, cid), (W.Devcontainer, cid)} <==> p.1 == cid
    {
      match p.0
      case Acks =>
      case Approvals =>
      case Devcontainer =>
    }
  }

  /** What one more id adds to the requests that are dropped. */
  lemma ReapedOneMore(p0: W.Pending, pending: W.Pending, done: set<string>, cid: string)
    requires PendingDropped(p0, pending, done) && cid !in done
    ensures forall k :: T.Listed(pending, cid, k) == T.Listed(p0, cid, k)
    ensures W.PendingOf(pending, W.Devcontainer, cid) == W.PendingOf(p0, W.Devcontainer, cid)
    ensures forall k :: ListedByAny(p0, done + {cid}, k) <==> ListedByAny(p0, done, k) || T.Listed(p0, cid, k)
    ensures forall id :: BridgedByAny(p0, done + {cid}, id)
                    <==> BridgedByAny(p0, done, id) || id in W.PendingOf(p0, W.Devcontainer, cid)
  {
    forall k
      ensures ListedByAny(p0, done + {cid}, k) <==> ListedByAny(p0, done, k) || T.Listed(p0, cid, k)
    {
      ListedByMore(p0, done, cid, k);
    }
    forall id
      ensures BridgedByAny(p0, done + {cid}, id)
         <==> BridgedByAny(p0, done, id) || id in W.PendingOf(p0, W.Devcontainer, cid)
    {
      BridgedByMore(p0, done, cid, id);
    }
  }
}
