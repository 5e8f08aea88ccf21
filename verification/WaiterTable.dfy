/**
 The waiter dictionaries of the connection manager, updated in place. Each method states its
 whole new state with the functions the abstract tables of module Waiters are built from; the
 event objects stand for the flags of the suspended coroutines that hold them.
 */
module WaiterTables {
  import opened Prelude
  import opened Waiters

  /** `asyncio.Event`, shared by the dictionary and the suspended coroutine. */
  class AsyncEvent {
    ghost const key: Key
    var flag: bool

    constructor (ghost key: Key)
      ensures this.key == key && !flag
    {
      this.key := key;
      flag := false;
    }
  }

  class WaiterTable {
    var events: map<Key, AsyncEvent>
    var results: map<Key, Value>
    var buffers: map<Id, Buffers>
    var pending: Pending
    ghost var pool: set<AsyncEvent>

    ghost predicate Valid()
      reads this
    {
      forall k :: k in events ==> events[k].key == k && events[k] in pool
    }

    /** The table still holds this event. */
    ghost predicate Holds(e: AsyncEvent)
      reads this
    {
      e.key in events && events[e.key] == e
    }

    constructor ()
      ensures Valid() && events == map[] && results == map[] && buffers == map[] && pending == map[] && pool == {}
    {
      events, results, buffers, pending, pool := map[], map[], map[], map[], {};
    }

    /** The synchronous prefix of every `wait_*`: create the event and index it. */
    method Register(key: Key, sid: SessionId) returns (event: AsyncEvent)
      requires Valid()
      modifies this
      ensures Valid() && fresh(event) && !event.flag && pool == old(pool) + {event}
      ensures events == old(events)[key := event] && results == old(results)
      ensures buffers == WithBuffers(old(buffers), key)
      ensures pending == WithPending(old(pending), IndexOf(key.kind), sid, key.id)
    {
      event := new AsyncEvent(key);
      events := events[key := event];
      buffers := WithBuffers(buffers, key);
      pending := WithPending(pending, IndexOf(key.kind), sid, key.id);
      pool := pool + {event};
    }

    /** A reply for an id nobody waits on is dropped, and so is an interim tick. */
    method Resolve(key: Key, value: Value)
      requires Valid()
      modifies this`results, if key in events then {events[key]} else {}
      ensures Valid()
      ensures key in events && Terminal(key, value) ==> events[key].flag && results == old(results)[key := value]
      ensures key !in events || !Terminal(key, value) ==>
        results == old(results) && (key in events ==> events[key].flag == old(events[key].flag))
    {
      if Terminal(key, value) && key in events {
        results := results[key := value];
        events[key].flag := true;
      }
    }

    method AppendStream(id: Id, toStderr: bool, text: string)
      modifies this`buffers
      ensures buffers == if id in old(buffers) then old(buffers)[id := Appended(old(buffers)[id], toStderr, text)]
                         else old(buffers)
    {
      if id in buffers {
        buffers := buffers[id := Appended(buffers[id], toStderr, text)];
      }
    }

    /** The `finally` block of every `wait_*`. */
    method CleanUp(key: Key, sid: SessionId, consumed: bool)
      requires Valid()
      modifies this`events, this`results, this`buffers, this`pending
      ensures Valid()
      ensures events == old(events) - {key} && results == KeptResults(old(results), key, consumed)
      ensures buffers == KeptBuffers(old(buffers), key)
      ensures pending == Discarded(old(pending), IndexOf(key.kind), sid, key.id)
    {
      results := KeptResults(results, key, consumed);
      events := events - {key};
      buffers := KeptBuffers(buffers, key);
      pending := Discarded(pending, IndexOf(key.kind), sid, key.id);
    }

    /** Resumed with its event set, a wait consumes its reply, cleans up and returns. */
    method Wake(key: Key, sid: SessionId) returns (reply: Option<Reply>)
      requires Valid()
      modifies this`events, this`results, this`buffers, this`pending
      ensures Valid()
      ensures reply == ReplyIn(old(results), old(buffers), key)
      ensures events == old(events) - {key} && results == old(results) - {key}
      ensures buffers == KeptBuffers(old(buffers), key)
      ensures pending == Discarded(old(pending), IndexOf(key.kind), sid, key.id)
    {
      if key !in results {
        reply := None;
      } else if !key.kind.Exec? {
        reply := Some(Answer(results[key]));
      } else {
        reply := Some(Output(if key.id in buffers then buffers[key.id] else Buffers([], []), results[key]));
      }
      CleanUp(key, sid, true);
    }

    /** Drop one key's entries, then wake its waiter. */
    method Pop(key: Key)
      requires Valid()
      modifies this`results, this`events, if key in events then {events[key]} else {}
      ensures Valid()
      ensures results == old(results) - {key} && events == old(events) - {key}
      ensures key in old(events) ==> old(events[key]).flag
    {
      results := results - {key};
      if key in events {
        events[key].flag := true;
        events := events - {key};
      }
    }

    /** All entries of one request: a request id of the bridge may be of either kind. */
    method ReapOne(index: Index, id: Id)
      requires Valid()
      modifies this`results, this`events, this`buffers, pool
      ensures Valid()
      ensures events == old(events) - KeysOf(index, {id}) && results == old(results) - KeysOf(index, {id})
      ensures buffers == ReapedBuffers(old(buffers), index, {id})
      ensures forall k :: k in old(events) ==> old(events[k]).flag == (old(events[k].flag) || k in KeysOf(index, {id}))
      ensures forall e :: e in pool && !old(Holds(e)) ==> e.flag == old(e.flag)
    {
      KeysOfOne(index, id);
      match index
      case Acks => Pop(Key(Patch, id));
      case Approvals => Pop(Key(Approval, id));
      case Devcontainer =>
        buffers := buffers - {id};
        Pop(Key(Provision, id));
        Pop(Key(Exec, id));
    }

    /** Disconnect, one reverse index: every request listed there is dropped and its waiter woken. */
    method ReapIndex(index: Index, sid: SessionId)
      requires Valid()
      modifies this, pool
      ensures Valid() && pool == old(pool)
      ensures pending == old(pending) - {(index, sid)}
      ensures var hit := KeysOf(index, PendingOf(old(pending), index, sid));
              && events == old(events) - hit && results == old(results) - hit
              && buffers == ReapedBuffers(old(buffers), index, PendingOf(old(pending), index, sid))
              && forall k :: k in old(events) ==> old(events[k]).flag == (old(events[k].flag) || k in hit)
      ensures forall e :: e in pool && !old(Holds(e)) ==> e.flag == old(e.flag)
    {
      hide KeysOf;
      var todo := PendingOf(pending, index, sid);
      KeysOfNone(index);
      pending := pending - {(index, sid)};
      ghost var done: set<Id> := {};
      while todo != {}
        invariant Valid() && pool == old(pool) && pending == old(pending) - {(index, sid)}
        invariant done + todo == PendingOf(old(pending), index, sid)
        invariant events == old(events) - KeysOf(index, done) && results == old(results) - KeysOf(index, done)
        invariant buffers == ReapedBuffers(old(buffers), index, done)
        invariant forall k :: k in old(events) ==>
          old(events[k]).flag == (old(events[k].flag) || k in KeysOf(index, done))
        invariant forall e :: e in pool && !old(Holds(e)) ==> e.flag == old(e.flag)
        decreases todo
      {
        var id :| id in todo;
        ReapOne(index, id);
        KeysOfMore(index, done, id);
        RemoveTwice(old(events), KeysOf(index, done), KeysOf(index, {id}));
        RemoveTwice(old(results), KeysOf(index, done), KeysOf(index, {id}));
        RemoveTwice(old(buffers), done, {id});
        done, todo := done + {id}, todo - {id};
      }
      assert done == PendingOf(old(pending), index, sid);
    }

    /** Disconnect: every waiter of the session is woken with its entries gone. */
    method ReapWaiters(sid: SessionId)
      requires Valid()
      modifies this, pool
      ensures Valid() && pool == old(pool)
      ensures pending == old(pending) - {(Approvals, sid), (Acks, sid), (Devcontainer, sid)}
      ensures forall k :: k in events <==> k in old(events) && !Listed(old(pending), sid, k)
      ensures forall k :: k in events ==> events[k] == old(events)[k]
      ensures forall k :: k in results <==> k in old(results) && !Listed(old(pending), sid, k)
      ensures forall k :: k in results ==> results[k] == old(results)[k]
      ensures buffers == old(buffers) - PendingOf(old(pending), Devcontainer, sid)
      ensures forall k :: k in old(events) ==>
        old(events[k]).flag == (old(events[k].flag) || Listed(old(pending), sid, k))
      ensures forall e :: e in pool && !old(Holds(e)) ==> e.flag == old(e.flag)
    {
      hide KeysOf;
      ghost var p0 := pending;
      InKeysOfAll(p0, sid);
      ReapIndex(Approvals, sid);
      assert PendingOf(pending, Acks, sid) == PendingOf(p0, Acks, sid);
      ReapIndex(Acks, sid);
      assert PendingOf(pending, Devcontainer, sid) == PendingOf(p0, Devcontainer, sid);
      ReapIndex(Devcontainer, sid);
    }
  }

  /** The reverse indexes list the key under this session. */
  ghost predicate Listed(pending: Pending, sid: SessionId, k: Key) {
    k.id in PendingOf(pending, IndexOf(k.kind), sid)
  }

  lemma InKeysOfAll(pending: Pending, sid: SessionId)
    ensures forall index, k :: k in KeysOf(index, PendingOf(pending, index, sid))
                               <==> IndexOf(k.kind) == index && Listed(pending, sid, k)
  {
    forall index, k
      ensures k in KeysOf(index, PendingOf(pending, index, sid)) <==> IndexOf(k.kind) == index && Listed(pending, sid, k)
    {
      InKeysOf(index, PendingOf(pending, index, sid), k);
    }
  }

  lemma KeysOfOne(index: Index, id: Id)
    ensures KeysOf(index, {id}) == match index
                                   case Acks => {Key(Patch, id)}
                                   case Approvals => {Key(Approval, id)}
                                   case Devcontainer => {Key(Provision, id), Key(Exec, id)}
  {
  }

  lemma KeysOfNone(index: Index)
    ensures KeysOf(index, {}) == {}
  {
  }

  lemma KeysOfMore(index: Index, ids: set<Id>, id: Id)
    ensures KeysOf(index, ids + {id}) == KeysOf(index, ids) + KeysOf(index, {id})
  {
  }

  lemma RemoveTwice<K, V>(m: map<K, V>, a: set<K>, b: set<K>)
    ensures (m - a) - b == m - (a + b)
  {
  }
}
