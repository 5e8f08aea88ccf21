/**
 The manager's side of an interactive devcontainer session: bounded queues that can always be
 forced to end, high/low-water flow control, and the bookkeeping of the open sessions. Every
 method is one step between two awaits; module SessionPipeline runs the steps in any order.
 */
module SessionQueues {
  import opened Prelude

  datatype Item = Data(bytes: Bytes) | Eof

  const CAPACITY: nat := 256
  const HIGH_WATER: nat := CAPACITY - 64
  const LOW_WATER: nat := 64

  /** The contents of one bounded queue, oldest first. */
  type Buffer = s: seq<Item> | |s| <= CAPACITY

  /** Push the sentinel, evicting the oldest item of a full queue to make room. */
  function ForcedEof(items: Buffer): Buffer {
    if |items| < CAPACITY then items + [Eof] else items[1..] + [Eof]
  }

  /** The flow transition a queue of `size` items calls for, if any. */
  function FlowSignal(size: nat, paused: bool): Option<bool> {
    if size >= HIGH_WATER && !paused then Some(true)
    else if size <= LOW_WATER && paused then Some(false)
    else None
  }

  /** One session as the manager sees it. */
  datatype Session = Session(registered: bool, items: Buffer, paused: bool, dropped: nat)

  function Flow(s: Session): Option<bool> {
    if s.registered then FlowSignal(|s.items|, s.paused) else None
  }

  function Flowed(s: Session): Session {
    match Flow(s)
    case None => s
    case Some(p) => s.(paused := p)
  }

  /** A chunk that decodes, arriving for a registered session. */
  function Enqueued(s: Session, chunk: Bytes): Session {
    if |s.items| < CAPACITY then s.(items := s.items + [Data(chunk)]) else s.(dropped := s.dropped + 1)
  }

  predicate Fits(s: Session) {
    |s.items| < CAPACITY
  }

  function Exited(s: Session): Session {
    if s.registered then s.(items := ForcedEof(s.items)) else s
  }

  function Unregistered(s: Session): Session {
    Session(false, if s.registered then ForcedEof(s.items) else s.items, false, 0)
  }

  /** The reverse index from client to open sessions: no empty entry is ever kept. */
  type Pending = map<string, set<string>>

  function PendingOf(pending: Pending, sid: string): set<string> {
    if sid in pending then pending[sid] else {}
  }

  function WithPending(pending: Pending, sid: string, ref: string): Pending {
    pending[sid := PendingOf(pending, sid) + {ref}]
  }

  function WithoutPending(pending: Pending, sid: string, ref: string): Pending {
    if sid !in pending then pending
    else if pending[sid] - {ref} == {} then pending - {sid}
    else pending[sid := pending[sid] - {ref}]
  }

  /** The index has no empty entry and lists every registered session under the client that opened it. */
  ghost predicate Indexed(pending: Pending, queues: map<string, BoundedQueue>) {
    && (forall sid :: sid in pending ==> pending[sid] != {})
    && (forall r :: r in queues ==> r in PendingOf(pending, queues[r].client))
  }

  /** `asyncio.Queue(maxsize=256)`: the object outlives its registration. */
  class BoundedQueue {
    ghost const owner: string
    ghost const client: string
    var items: Buffer

    constructor (ghost owner: string, ghost client: string)
      ensures items == [] && this.owner == owner && this.client == client
    {
      items := [];
      this.owner, this.client := owner, client;
    }

    method PutNowait(x: Item) returns (ok: bool)
      modifies this
      ensures ok <==> |old(items)| < CAPACITY
      ensures items == if ok then old(items) + [x] else old(items)
    {
      ok := |items| < CAPACITY;
      if ok {
        items := items + [x];
      }
    }

    method GetNowait() returns (x: Option<Item>)
      modifies this
      ensures old(items) == [] ==> x == None && items == []
      ensures old(items) != [] ==> x == Some(old(items)[0]) && items == old(items)[1..]
    {
      if items == [] {
        return None;
      }
      x := Some(items[0]);
      items := items[1..];
    }

    /** Never waits and never fails, even on a full queue. */
    method ForceEof()
      modifies this
      ensures items == ForcedEof(old(items))
    {
      var ok := PutNowait(Eof);
      if !ok {
        var _ := GetNowait();
        var _ := PutNowait(Eof);
      }
    }
  }

  /** The manager's bookkeeping of interactive sessions. */
  class SessionTable {
    var queues: map<string, BoundedQueue>
    var droppedChunks: map<string, nat>
    var paused: set<string>
    var exits: map<string, int>
    var pending: Pending
    ghost var pool: set<BoundedQueue>

    ghost predicate Valid()
      reads this
    {
      && (forall r :: r in droppedChunks <==> r in queues)
      && (forall r :: r in paused ==> r in queues)
      && (forall r :: r in queues ==> queues[r] in pool && queues[r].owner == r)
      && Indexed(pending, queues)
    }

    /** The session `ref` whose queue object is `q`, registered or not. */
    ghost function View(ref: string, q: BoundedQueue): Session
      reads this, q
    {
      Session(ref in queues && queues[ref] == q, q.items, ref in paused,
              if ref in droppedChunks then droppedChunks[ref] else 0)
    }

    constructor ()
      ensures Valid() && queues == map[] && pending == map[] && pool == {}
    {
      queues, droppedChunks, paused, exits, pending := map[], map[], {}, map[], map[];
      pool := {};
    }

    /** Idempotent: a second registration returns the live queue and changes nothing. */
    method Register(sid: string, ref: string) returns (q: BoundedQueue)
      requires Valid()
      modifies this
      ensures Valid()
      ensures ref in old(queues) ==> q == old(queues[ref]) && unchanged(this)
      ensures ref !in old(queues) ==>
        && fresh(q) && View(ref, q) == Session(true, [], false, 0)
        && queues == old(queues)[ref := q] && droppedChunks == old(droppedChunks)[ref := 0]
        && paused == old(paused) && exits == old(exits)
        && pending == WithPending(old(pending), sid, ref) && q.client == sid
    {
      hide Indexed, WithPending;
      ghost var before := queues;
      if ref in queues {
        return queues[ref];
      }
      q := new BoundedQueue(ref, sid);
      pool := pool + {q};
      queues := queues[ref := q];
      PendingAfterOpen(pending, before, sid, ref, q);
      droppedChunks := droppedChunks[ref := 0];
      pending := WithPending(pending, sid, ref);
    }

    /** The idempotent teardown shared by close, failed open and disconnect. */
    method Unregister(sid: string, ref: string)
      requires Valid()
      modifies this`queues, this`droppedChunks, this`paused, this`exits, this`pending
      modifies if ref in queues then {queues[ref]} else {}
      ensures Valid()
      ensures queues == old(queues) - {ref} && droppedChunks == old(droppedChunks) - {ref}
      ensures paused == old(paused) - {ref} && exits == old(exits) - {ref}
      ensures pending == WithoutPending(old(pending), sid, ref)
      ensures ref in old(queues) ==>
        View(ref, old(queues[ref])) == Unregistered(old(View(ref, queues[ref])))
    {
      hide Indexed, WithoutPending;
      PendingAfterClose(pending, queues, sid, ref);
      assert ref !in queues ==> queues - {ref} == queues;
      if ref in queues {
        var q := queues[ref];
        queues := queues - {ref};
        q.ForceEof();
      }
      droppedChunks := droppedChunks - {ref};
      paused := paused - {ref};
      exits := exits - {ref};
      pending := WithoutPending(pending, sid, ref);
    }

    method UpdateFlowState(ref: string) returns (flow: Option<bool>)
      requires Valid()
      modifies this`paused
      ensures Valid() && paused - {ref} == old(paused) - {ref}
      ensures ref !in queues ==> flow == None && unchanged(this)
      ensures ref in queues ==> flow == Flow(old(View(ref, queues[ref])))
                                && View(ref, queues[ref]) == Flowed(old(View(ref, queues[ref])))
      ensures flow == Some(true) <==> ref in queues && |queues[ref].items| >= 192 && ref !in old(paused)
      ensures flow == Some(false) <==> ref in queues && |queues[ref].items| <= 64 && ref in old(paused)
    {
      hide Indexed;
      if ref !in queues {
        return None;
      }
      var size := |queues[ref].items|;
      if size >= HIGH_WATER && ref !in paused {
        paused := paused + {ref};
        return Some(true);
      }
      if size <= LOW_WATER && ref in paused {
        paused := paused - {ref};
        return Some(false);
      }
      return None;
    }

    /** Never waits: a chunk that does not fit is dropped and counted. */
    method PushChunk(ref: string, decoded: Option<Bytes>) returns (flow: Option<bool>)
      requires Valid()
      modifies this`droppedChunks, this`paused, if ref in queues then {queues[ref]} else {}
      ensures Valid() && paused - {ref} == old(paused) - {ref}
      ensures droppedChunks - {ref} == old(droppedChunks) - {ref}
      ensures ref !in queues || decoded.None? ==> flow == None && unchanged(this)
      ensures ref in queues && decoded.Some? ==>
        var s := old(View(ref, queues[ref]));
        var t := Enqueued(s, decoded.value);
        && flow == (if Fits(s) then Flow(t) else None)
        && View(ref, queues[ref]) == (if Fits(s) then Flowed(t) else t)
      ensures flow == Some(true) <==>
        && ref in queues && decoded.Some? && ref !in old(paused)
        && 192 <= old(if ref in queues then |queues[ref].items| else 0) + 1 <= 256
    {
      hide Indexed;
      if ref !in queues || decoded.None? {
        return None;
      }
      var ok := queues[ref].PutNowait(Data(decoded.value));
      if !ok {
        droppedChunks := droppedChunks[ref := droppedChunks[ref] + 1];
        return None;
      }
      flow := UpdateFlowState(ref);
    }

    method ResolveExit(ref: string, code: int)
      requires Valid()
      modifies this`exits, if ref in queues then {queues[ref]} else {}
      ensures Valid()
      ensures exits == old(exits)[ref := code]
      ensures ref in queues ==> View(ref, queues[ref]) == Exited(old(View(ref, queues[ref])))
    {
      exits := exits[ref := code];
      if ref in queues {
        queues[ref].ForceEof();
      }
    }

    /** Disconnect: every session of the client is closed and its consumer woken. */
    method ReapSessions(cid: string)
      requires Valid()
      modifies this`queues, this`droppedChunks, this`paused, this`exits, this`pending, pool
      ensures Valid() && pool == old(pool) && pending == old(pending) - {cid}
      ensures queues == old(queues) - PendingOf(old(pending), cid)
      ensures droppedChunks == old(droppedChunks) - PendingOf(old(pending), cid)
      ensures paused == old(paused) - PendingOf(old(pending), cid)
      ensures exits == old(exits) - PendingOf(old(pending), cid)
      ensures forall r :: r in queues ==> queues[r].client != cid
      ensures forall q :: q in pool && !(q.owner in old(queues) && old(queues)[q.owner] == q) ==> q.items == old(q.items)
      ensures forall r :: r in old(queues) ==>
        old(queues)[r].items == (if r in PendingOf(old(pending), cid) then ForcedEof(old(queues[r].items))
                                 else old(queues[r].items))
    {
      hide ForcedEof, WithoutPending, PendingOf, Indexed;
      var todo := PendingOf(pending, cid);
      ghost var done, start: map<string, BoundedQueue> := {}, queues;
      while todo != {}
        invariant Valid() && pool == old(pool)
        invariant PendingOf(pending, cid) == todo && pending - {cid} == old(pending) - {cid}
        invariant done !! todo && done + todo == PendingOf(old(pending), cid)
        invariant queues == start - done && droppedChunks == old(droppedChunks) - done
        invariant paused == old(paused) - done && exits == old(exits) - done
        invariant forall r :: r in start ==>
          start[r].items == if r in done then ForcedEof(old(start[r].items)) else old(start[r].items)
        invariant forall q :: q in pool && !(q.owner in start && start[q.owner] == q) ==> q.items == old(q.items)
        decreases todo
      {
        var ref :| ref in todo;
        PendingWithout(pending, cid, ref);
        Unregister(cid, ref);
        RemoveTwice(start, done, ref);
        RemoveTwice(old(droppedChunks), done, ref);
        RemoveTwice(old(exits), done, ref);
        done, todo := done + {ref}, todo - {ref};
      }
      assert done == PendingOf(old(pending), cid);
      NoneLeft(pending, queues, cid);
    }
  }

  /** Opening a session adds it to its own client's index; closing it takes it out again, and nothing else. */
  lemma PendingMoves(pending: Pending, sid: string, ref: string, s: string, r: string)
    ensures r in PendingOf(WithPending(pending, sid, ref), s) <==> r in PendingOf(pending, s) || (s == sid && r == ref)
    ensures r in PendingOf(WithoutPending(pending, sid, ref), s) <==>
              r in PendingOf(pending, s) && !(s == sid && r == ref)
  {
  }

  lemma PendingAfterOpen(pending: Pending, queues: map<string, BoundedQueue>, sid: string, ref: string, q: BoundedQueue)
    requires Indexed(pending, queues) && q.client == sid
    ensures Indexed(WithPending(pending, sid, ref), queues[ref := q])
  {
    assert ref in WithPending(pending, sid, ref)[sid];
  }

  lemma PendingAfterClose(pending: Pending, queues: map<string, BoundedQueue>, sid: string, ref: string)
    requires Indexed(pending, queues)
    ensures Indexed(WithoutPending(pending, sid, ref), queues - {ref})
  {
    hide WithoutPending;
    var after := WithoutPending(pending, sid, ref);
    forall r | r in queues && r != ref ensures r in PendingOf(after, queues[r].client) {
      PendingMoves(pending, sid, ref, queues[r].client, r);
    }
    NoEmptyEntry(pending, sid, ref);
  }

  lemma NoEmptyEntry(pending: Pending, sid: string, ref: string)
    requires forall s :: s in pending ==> pending[s] != {}
    ensures forall s :: s in WithoutPending(pending, sid, ref) ==> WithoutPending(pending, sid, ref)[s] != {}
  {
  }

  lemma PendingWithout(pending: Pending, sid: string, ref: string)
    ensures PendingOf(WithoutPending(pending, sid, ref), sid) == PendingOf(pending, sid) - {ref}
    ensures WithoutPending(pending, sid, ref) - {sid} == pending - {sid}
  {
  }

  lemma NoneLeft(pending: Pending, queues: map<string, BoundedQueue>, sid: string)
    requires PendingOf(pending, sid) == {} && Indexed(pending, queues)
    ensures pending - {sid} == pending
    ensures forall r :: r in queues ==> queues[r].client != sid
  {
  }

  /** Whoever has a session registered has an entry in the index. */
  lemma ClientsAreIndexed(pending: Pending, queues: map<string, BoundedQueue>)
    requires Indexed(pending, queues)
    ensures forall r :: r in queues ==> queues[r].client in pending
  {
  }

  lemma RemoveTwice<T>(m: map<string, T>, a: set<string>, x: string)
    ensures (m - a) - {x} == m - (a + {x})
  {
  }
}
