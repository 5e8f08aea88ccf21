/**
 Request/response waiters of the connection manager: patch acks, human approvals, and the
 provisioning and exec round trips of the devcontainer bridge.

 A waiter registers under a fresh id, suspends on its event, and cleans up when it resumes.
 Replies, timeouts, cancellations and disconnects strike in any order. The main result is
 that the shared tables are exactly a family of independent one-waiter automata: what one id
 sees never depends on any other id.
 */
module Waiters {
  import opened Prelude

  type Id = string
  type SessionId = string
  type Value = string

  datatype Kind = Patch | Approval | Provision | Exec

  /** The reverse indexes: provisioning and exec share one. */
  datatype Index = Acks | Approvals | Devcontainer

  function IndexOf(kind: Kind): Index {
    match kind
    case Patch => Acks
    case Approval => Approvals
    case _ => Devcontainer
  }

  datatype Key = Key(kind: Kind, id: Id)

  datatype Buffers = Buffers(stdout: seq<string>, stderr: seq<string>)

  datatype Reply = Answer(value: Value) | Output(buffers: Buffers, code: Value)

  /** A suspended coroutine: its session and the flag of the event it waits on. */
  datatype Waiter = Waiter(session: SessionId, signalled: bool)

  type Pending = map<(Index, SessionId), set<Id>>

  datatype Table = Table(
    suspended: map<Key, Waiter>,
    registered: set<Key>,
    results: map<Key, Value>,
    buffers: map<Id, Buffers>,
    pending: Pending,
    used: map<Id, Key>,
    returned: map<Key, Option<Reply>>,
    cancelled: set<Key>)

  const Empty := Table(map[], {}, map[], map[], map[], map[], map[], {})

  datatype Event =
    | Register(key: Key, session: SessionId)
    | Resolve(key: Key, value: Value)
    | Chunk(id: Id, toStderr: bool, text: string)
    | Wake(key: Key)
    | Timeout(key: Key)
    | Cancel(key: Key)
    | Reap(session: SessionId)

  function PendingOf(pending: Pending, index: Index, sid: SessionId): set<Id> {
    if (index, sid) in pending then pending[(index, sid)] else {}
  }

  function WithPending(pending: Pending, index: Index, sid: SessionId, id: Id): Pending {
    pending[(index, sid) := PendingOf(pending, index, sid) + {id}]
  }

  function Discarded(pending: Pending, index: Index, sid: SessionId, id: Id): Pending {
    var rest := PendingOf(pending, index, sid) - {id};
    if rest == {} then pending - {(index, sid)} else pending[(index, sid) := rest]
  }

  function Lookup<K, V>(m: map<K, V>, k: K): Option<V> {
    if k in m then Some(m[k]) else None
  }

  function Appended(b: Buffers, toStderr: bool, text: string): Buffers {
    if toStderr then b.(stderr := b.stderr + [text]) else b.(stdout := b.stdout + [text])
  }

  /** An interim provisioning tick is progress telemetry and resolves nothing. */
  predicate Terminal(key: Key, value: Value) {
    key.kind.Provision? ==> value != "provisioning"
  }

  function Registered(t: Table, key: Key, sid: SessionId): Table {
    t.(suspended := t.suspended[key := Waiter(sid, false)],
       registered := t.registered + {key},
       buffers := WithBuffers(t.buffers, key),
       pending := WithPending(t.pending, IndexOf(key.kind), sid, key.id),
       used := t.used[key.id := key])
  }

  function Resolved(t: Table, key: Key, value: Value): Table
    requires key in t.suspended
  {
    t.(results := t.results[key := value],
       suspended := t.suspended[key := t.suspended[key].(signalled := true)])
  }

  /** What a woken waiter hands to its caller. */
  function ReplyIn(results: map<Key, Value>, buffers: map<Id, Buffers>, key: Key): Option<Reply> {
    if key !in results then None
    else if !key.kind.Exec? then Some(Answer(results[key]))
    else Some(Output(if key.id in buffers then buffers[key.id] else Buffers([], []), results[key]))
  }

  /** Patch and approval waits do not drop an unconsumed result. */
  function KeptResults(results: map<Key, Value>, key: Key, consumed: bool): map<Key, Value> {
    if consumed || key.kind.Exec? || key.kind.Provision? then results - {key} else results
  }

  function KeptBuffers(buffers: map<Id, Buffers>, key: Key): map<Id, Buffers> {
    if key.kind.Exec? then buffers - {key.id} else buffers
  }

  function WithBuffers(buffers: map<Id, Buffers>, key: Key): map<Id, Buffers> {
    if key.kind.Exec? then buffers[key.id := Buffers([], [])] else buffers
  }

  /** The `finally` block of a wait. */
  function Finished(t: Table, key: Key, consumed: bool): Table
    requires key in t.suspended
  {
    t.(suspended := t.suspended - {key},
       registered := t.registered - {key},
       results := KeptResults(t.results, key, consumed),
       buffers := KeptBuffers(t.buffers, key),
       pending := Discarded(t.pending, IndexOf(key.kind), t.suspended[key].session, key.id))
  }

  /** The keys a reverse index with the entries `ids` stands for. */
  function KeysOf(index: Index, ids: set<Id>): set<Key> {
    match index
    case Acks => set id | id in ids :: Key(Patch, id)
    case Approvals => set id | id in ids :: Key(Approval, id)
    case Devcontainer => (set id | id in ids :: Key(Provision, id)) + (set id | id in ids :: Key(Exec, id))
  }

  function ReapedBuffers(buffers: map<Id, Buffers>, index: Index, ids: set<Id>): map<Id, Buffers> {
    if index.Devcontainer? then buffers - ids else buffers
  }

  /** Drop every entry of the requests `ids`, then set their events. */
  function ReapedIds(t: Table, index: Index, ids: set<Id>): Table {
    var hit := KeysOf(index, ids);
    t.(registered := t.registered - hit,
       results := t.results - hit,
       buffers := ReapedBuffers(t.buffers, index, ids),
       suspended := (map k | k in t.suspended ::
         Waiter(t.suspended[k].session, t.suspended[k].signalled || (k in t.registered && k in hit))))
  }

  /** Disconnect, one reverse index. */
  function ReapedIndex(t: Table, index: Index, sid: SessionId): Table {
    ReapedIds(t.(pending := t.pending - {(index, sid)}), index, PendingOf(t.pending, index, sid))
  }

  function Reaped(t: Table, sid: SessionId): Table {
    ReapedIndex(ReapedIndex(ReapedIndex(t, Approvals, sid), Acks, sid), Devcontainer, sid)
  }

  function Next(t: Table, e: Event): Table {
    match e
    case Register(key, sid) => if key.id in t.used then t else Registered(t, key, sid)
    case Resolve(key, value) =>
      if key in t.registered && key in t.suspended && Terminal(key, value) then Resolved(t, key, value) else t
    case Chunk(id, toStderr, text) =>
      if id in t.buffers then t.(buffers := t.buffers[id := Appended(t.buffers[id], toStderr, text)]) else t
    case Wake(key) =>
      if key in t.suspended && t.suspended[key].signalled
      then Finished(t, key, true).(returned := t.returned[key := ReplyIn(t.results, t.buffers, key)]) else t
    case Timeout(key) =>
      if key in t.suspended && !t.suspended[key].signalled
      then Finished(t, key, false).(returned := t.returned[key := None]) else t
    case Cancel(key) =>
      if key in t.suspended then Finished(t, key, false).(cancelled := t.cancelled + {key}) else t
    case Reap(sid) => Reaped(t, sid)
  }

  function Run(es: seq<Event>): Table {
    if es == [] then Empty else Next(Run(es[..|es| - 1]), es[|es| - 1])
  }

  // ---------------------------------------------------------------------
  // One waiter on its own
  // ---------------------------------------------------------------------

  datatype View =
    | Unused
    | Live(session: SessionId, reply: Option<Value>, buffers: Buffers)
    | Lost(session: SessionId)                 // its session disconnected; not yet resumed
    | Returned(result: Option<Reply>)
    | Cancelled(leftover: Option<Value>)

  /** The lifecycle of the waiter `k`, seeing only the events that concern it. */
  function Step(k: Key, v: View, e: Event): View {
    match v
    case Unused => if e.Register? && e.key == k then Live(e.session, None, Buffers([], [])) else v
    case Live(sid, reply, b) => (
      match e
      case Resolve(key, value) => if key == k && Terminal(k, value) then v.(reply := Some(value)) else v
      case Chunk(id, toStderr, text) =>
        if k.kind.Exec? && id == k.id then v.(buffers := Appended(b, toStderr, text)) else v
      case Wake(key) =>
        if key != k || reply.None? then v
        else Returned(Some(if k.kind.Exec? then Output(b, reply.value) else Answer(reply.value)))
      case Timeout(key) => if key == k && reply.None? then Returned(None) else v
      case Cancel(key) =>
        if key != k then v else Cancelled(if k.kind.Exec? || k.kind.Provision? then None else reply)
      case Reap(s) => if s == sid then Lost(sid) else v
      case Register(_, _) => v
    )
    case Lost(_) =>
      if e.Wake? && e.key == k then Returned(None) else if e.Cancel? && e.key == k then Cancelled(None) else v
    case _ => v
  }

  /** Ids are fresh: every registration uses one never used before. */
  ghost predicate FreshIds(es: seq<Event>) {
    es == []
    || (var init, e := es[..|es| - 1], es[|es| - 1];
        FreshIds(init) && (e.Register? ==> e.key.id !in Run(init).used))
  }

  function Alone(k: Key, es: seq<Event>): View {
    if es == [] then Unused else Step(k, Alone(k, es[..|es| - 1]), es[|es| - 1])
  }

  /** What the shared tables say about `k`. */
  function ViewOf(t: Table, k: Key): View {
    if k in t.suspended then
      if k in t.registered
      then Live(t.suspended[k].session, Lookup(t.results, k),
                if k.kind.Exec? && k.id in t.buffers then t.buffers[k.id] else Buffers([], []))
      else Lost(t.suspended[k].session)
    else if k in t.returned then Returned(t.returned[k])
    else if k in t.cancelled then Cancelled(Lookup(t.results, k))
    else Unused
  }

  /** Everything the tables hold belongs to a key that registered under that id. */
  ghost predicate Owned(t: Table, k: Key) {
    (k in t.suspended || k in t.registered || k in t.results || k in t.returned || k in t.cancelled)
    ==> k.id in t.used && t.used[k.id] == k
  }

  ghost predicate KeyInv(t: Table, k: Key) {
    && Owned(t, k)
    && (k in t.registered ==> k in t.suspended)
    && (k in t.suspended ==> k !in t.returned && k !in t.cancelled)
    && (k in t.returned ==> k !in t.results && k !in t.cancelled)
    && (k in t.registered ==> (t.suspended[k].signalled <==> k in t.results))
    && (k in t.suspended && k !in t.registered ==> t.suspended[k].signalled && k !in t.results)
    && (k in t.results && k !in t.registered ==> k in t.cancelled && !k.kind.Exec? && !k.kind.Provision?)
    && (k in t.registered ==> k.id in PendingOf(t.pending, IndexOf(k.kind), t.suspended[k].session))
    && (k in t.registered && k.kind.Exec? ==> k.id in t.buffers)
  }

  /** A reverse-index entry belongs to a registered waiter of that session. */
  ghost predicate IndexInv(t: Table, index: Index, sid: SessionId, id: Id) {
    id in PendingOf(t.pending, index, sid) ==>
      && id in t.used && t.used[id].id == id
      && t.used[id] in t.registered && t.used[id] in t.suspended
      && IndexOf(t.used[id].kind) == index && t.suspended[t.used[id]].session == sid
  }

  ghost predicate BufferInv(t: Table, id: Id) {
    id in t.buffers ==> Key(Exec, id) in t.registered
  }

  ghost predicate Inv(t: Table) {
    && (forall k :: KeyInv(t, k))
    && (forall index, sid, id :: IndexInv(t, index, sid, id))
    && (forall id :: BufferInv(t, id))
    && (forall p :: p in t.pending ==> t.pending[p] != {})
  }

  lemma RegisterKeeps(t: Table, key: Key, sid: SessionId)
    requires Inv(t) && key.id !in t.used
    ensures Inv(Registered(t, key, sid))
  {
    var u := Registered(t, key, sid);
    forall k
      ensures KeyInv(u, k)
    {
      assert KeyInv(t, k);
    }
    forall index, s, id
      ensures IndexInv(u, index, s, id)
    {
      assert IndexInv(t, index, s, id);
    }
    forall id
      ensures BufferInv(u, id)
    {
      assert BufferInv(t, id);
    }
  }

  lemma ResolveKeeps(t: Table, key: Key, value: Value)
    requires Inv(t) && key in t.registered && key in t.suspended
    ensures Inv(Resolved(t, key, value))
  {
    var u := Resolved(t, key, value);
    forall k
      ensures KeyInv(u, k)
    {
      assert KeyInv(t, k);
    }
    forall index, s, id
      ensures IndexInv(u, index, s, id)
    {
      assert IndexInv(t, index, s, id);
    }
    forall id
      ensures BufferInv(u, id)
    {
      assert BufferInv(t, id);
    }
  }

  /** A waiter that runs its cleanup, however it was resumed. */
  lemma FinishKeeps(t: Table, e: Event)
    requires Inv(t) && (e.Wake? || e.Timeout? || e.Cancel?)
    ensures Inv(Next(t, e))
  {
    hide ReplyIn;
    forall k
      ensures KeyInv(Next(t, e), k)
    {
      FinishKeepsKey(t, e, k);
    }
    forall index, s, id
      ensures IndexInv(Next(t, e), index, s, id)
    {
      FinishKeepsIndex(t, e, index, s, id);
    }
    forall id
      ensures BufferInv(Next(t, e), id)
    {
      FinishKeepsIndex(t, e, Devcontainer, "", id);
    }
    FinishKeepsPending(t, e);
  }

  lemma FinishKeepsPending(t: Table, e: Event)
    requires Inv(t) && (e.Wake? || e.Timeout? || e.Cancel?)
    ensures forall p :: p in Next(t, e).pending ==> Next(t, e).pending[p] != {}
  {
    hide ReplyIn, KeyInv, IndexInv, BufferInv;
  }

  lemma FinishKeepsKey(t: Table, e: Event, k: Key)
    requires Inv(t) && (e.Wake? || e.Timeout? || e.Cancel?)
    ensures KeyInv(Next(t, e), k)
  {
    hide ReplyIn;
    assert KeyInv(t, k) && KeyInv(t, e.key);
  }

  lemma FinishKeepsIndex(t: Table, e: Event, index: Index, sid: SessionId, id: Id)
    requires Inv(t) && (e.Wake? || e.Timeout? || e.Cancel?)
    ensures IndexInv(Next(t, e), index, sid, id) && BufferInv(Next(t, e), id)
  {
    hide ReplyIn;
    assert KeyInv(t, e.key) && IndexInv(t, index, sid, id) && BufferInv(t, id);
  }

  lemma ReapIndexKeeps(t: Table, index: Index, sid: SessionId)
    requires Inv(t)
    ensures Inv(ReapedIndex(t, index, sid))
  {
    hide KeysOf;
    var u := ReapedIndex(t, index, sid);
    forall k
      ensures KeyInv(u, k)
    {
      assert KeyInv(t, k);
      assert IndexInv(t, index, sid, k.id);
      InKeysOf(index, PendingOf(t.pending, index, sid), k);
    }
    forall i, s, id
      ensures IndexInv(u, i, s, id)
    {
      assert IndexInv(t, i, s, id);
      assert IndexInv(t, index, sid, id);
      if id in t.used {
        InKeysOf(index, PendingOf(t.pending, index, sid), t.used[id]);
      }
    }
    forall id
      ensures BufferInv(u, id)
    {
      assert BufferInv(t, id);
      assert KeyInv(t, Key(Exec, id));
      InKeysOf(index, PendingOf(t.pending, index, sid), Key(Exec, id));
    }
  }

  lemma {:induction false} RunKeeps(es: seq<Event>)
    ensures Inv(Run(es))
  {
    if es != [] {
      var t, e := Run(es[..|es| - 1]), es[|es| - 1];
      RunKeeps(es[..|es| - 1]);
      match e
      case Register(key, sid) => if key.id !in t.used { RegisterKeeps(t, key, sid); }
      case Resolve(key, value) =>
        if key in t.registered && key in t.suspended { ResolveKeeps(t, key, value); }
      case Chunk(id, _, _) => ChunkKeeps(t, e);
      case Reap(sid) =>
        ReapIndexKeeps(t, Approvals, sid);
        ReapIndexKeeps(ReapedIndex(t, Approvals, sid), Acks, sid);
        ReapIndexKeeps(ReapedIndex(ReapedIndex(t, Approvals, sid), Acks, sid), Devcontainer, sid);
      case _ => FinishKeeps(t, e);
    }
  }

  lemma ChunkKeeps(t: Table, e: Event)
    requires Inv(t) && e.Chunk?
    ensures Inv(Next(t, e))
  {
    var u := Next(t, e);
    forall k
      ensures KeyInv(u, k)
    {
      assert KeyInv(t, k);
    }
    forall index, s, id
      ensures IndexInv(u, index, s, id)
    {
      assert IndexInv(t, index, s, id);
    }
    forall id
      ensures BufferInv(u, id)
    {
      assert BufferInv(t, id);
    }
  }

  // ---------------------------------------------------------------------
  // The tables are a family of independent waiters
  // ---------------------------------------------------------------------

  lemma ReapIndexView(t: Table, index: Index, sid: SessionId, k: Key)
    requires Inv(t)
    ensures ViewOf(ReapedIndex(t, index, sid), k)
         == if IndexOf(k.kind) == index then Step(k, ViewOf(t, k), Reap(sid)) else ViewOf(t, k)
  {
    hide KeysOf;
    assert KeyInv(t, k);
    assert IndexInv(t, index, sid, k.id);
    InKeysOf(index, PendingOf(t.pending, index, sid), k);
    hide Inv;
  }

  lemma InKeysOf(index: Index, ids: set<Id>, k: Key)
    ensures k in KeysOf(index, ids) <==> IndexOf(k.kind) == index && k.id in ids
  {
  }

  lemma ReapView(t: Table, sid: SessionId, k: Key)
    requires Inv(t)
    ensures ViewOf(Reaped(t, sid), k) == Step(k, ViewOf(t, k), Reap(sid))
  {
    hide ViewOf, ReapedIndex;
    var t1 := ReapedIndex(t, Approvals, sid);
    var t2 := ReapedIndex(t1, Acks, sid);
    ReapIndexKeeps(t, Approvals, sid);
    ReapIndexKeeps(t1, Acks, sid);
    ReapIndexView(t, Approvals, sid, k);
    ReapIndexView(t1, Acks, sid, k);
    ReapIndexView(t2, Devcontainer, sid, k);
  }

  /** Every event moves the view of every key exactly as it moves that key's own automaton. */
  lemma NextView(t: Table, e: Event, k: Key)
    requires Inv(t) && (e.Register? ==> e.key.id !in t.used)
    ensures ViewOf(Next(t, e), k) == Step(k, ViewOf(t, k), e)
  {
    assert KeyInv(t, k);
    match e
    case Reap(sid) => ReapView(t, sid, k);
    case Register(key, _) => assert KeyInv(t, key);
    case Resolve(key, _) => assert KeyInv(t, key);
    case Chunk(id, _, _) => ChunkView(t, e, k);
    case _ => FinishView(t, e, k);
  }

  lemma ChunkView(t: Table, e: Event, k: Key)
    requires Inv(t) && e.Chunk?
    ensures ViewOf(Next(t, e), k) == Step(k, ViewOf(t, k), e)
  {
    assert KeyInv(t, k) && BufferInv(t, e.id);
  }

  lemma FinishView(t: Table, e: Event, k: Key)
    requires Inv(t) && (e.Wake? || e.Timeout? || e.Cancel?)
    ensures ViewOf(Next(t, e), k) == Step(k, ViewOf(t, k), e)
  {
    if k == e.key {
      FinishOwnView(t, e);
    } else {
      FinishOtherView(t, e, k);
    }
  }

  lemma StepElsewhere(k: Key, v: View, e: Event)
    requires (e.Wake? || e.Timeout? || e.Cancel?) && e.key != k
    ensures Step(k, v, e) == v
  {
  }

  lemma FinishOtherView(t: Table, e: Event, k: Key)
    requires Inv(t) && (e.Wake? || e.Timeout? || e.Cancel?) && e.key != k
    ensures ViewOf(Next(t, e), k) == Step(k, ViewOf(t, k), e)
  {
    hide ReplyIn, Discarded, IndexOf, Step;
    StepElsewhere(k, ViewOf(t, k), e);
    assert KeyInv(t, k) && KeyInv(t, e.key);
  }

  lemma FinishOwnView(t: Table, e: Event)
    requires Inv(t) && (e.Wake? || e.Timeout? || e.Cancel?)
    ensures ViewOf(Next(t, e), e.key) == Step(e.key, ViewOf(t, e.key), e)
  {
    assert KeyInv(t, e.key);
  }

  /** Refinement: what a key sees in the shared tables is its own automaton, run alone. */
  lemma {:induction false} WaitersAreIndependent(es: seq<Event>, k: Key)
    requires FreshIds(es)
    ensures ViewOf(Run(es), k) == Alone(k, es)
  {
    if es != [] {
      var init, e := es[..|es| - 1], es[|es| - 1];
      WaitersAreIndependent(init, k);
      RunKeeps(init);
      NextView(Run(init), e, k);
    }
  }

  function ValueOf(r: Reply): Value {
    if r.Answer? then r.value else r.code
  }

  lemma {:induction false} ReplyWasSent(k: Key, es: seq<Event>)
    ensures var v := Alone(k, es);
            && (v.Live? && v.reply.Some? ==> Resolve(k, v.reply.value) in es)
            && (v.Returned? && v.result.Some? ==> Resolve(k, ValueOf(v.result.value)) in es)
            && (v.Cancelled? && v.leftover.Some? ==> Resolve(k, v.leftover.value) in es)
  {
    if es != [] {
      ReplyWasSent(k, es[..|es| - 1]);
      assert es == es[..|es| - 1] + [es[|es| - 1]];
    }
  }

  /** A waiter returns a reply addressed to its own id, or nothing. */
  lemma OwnReplyOnly(es: seq<Event>, k: Key)
    requires FreshIds(es) && k in Run(es).returned && Run(es).returned[k].Some?
    ensures Resolve(k, ValueOf(Run(es).returned[k].value)) in es
  {
    WaitersAreIndependent(es, k);
    ReplyWasSent(k, es);
    RunKeeps(es);
    assert KeyInv(Run(es), k);
  }

  /** The texts of one output stream sent to `k` since it registered, in order. */
  function Said(k: Key, es: seq<Event>, toStderr: bool): seq<string> {
    if es == [] then []
    else
      var init, e := es[..|es| - 1], es[|es| - 1];
      if e.Register? && e.key == k then []
      else if e.Chunk? && e.id == k.id && e.toStderr == toStderr then Said(k, init, toStderr) + [e.text]
      else Said(k, init, toStderr)
  }

  /** The last terminal reply sent to `k` since it registered. */
  function LastReply(k: Key, es: seq<Event>): Option<Value> {
    if es == [] then None
    else
      var init, e := es[..|es| - 1], es[|es| - 1];
      if e.Register? && e.key == k then None
      else if e.Resolve? && e.key == k && !(k.kind == Provision && e.value == "provisioning") then Some(e.value)
      else LastReply(k, init)
  }

  lemma {:induction false} AloneHolds(k: Key, es: seq<Event>)
    requires FreshIds(es) && Alone(k, es).Live?
    ensures Alone(k, es).reply == LastReply(k, es)
    ensures k.kind.Exec? ==> Alone(k, es).buffers == Buffers(Said(k, es, false), Said(k, es, true))
  {
    var init, e := es[..|es| - 1], es[|es| - 1];
    if Alone(k, init).Live? {
      AloneHolds(k, init);
      if e.Register? && e.key == k {
        LiveIsUsed(k, init);
      }
    }
  }

  lemma LiveIsUsed(k: Key, es: seq<Event>)
    requires FreshIds(es) && Alone(k, es).Live?
    ensures k.id in Run(es).used
  {
    WaitersAreIndependent(es, k);
    RunKeeps(es);
    assert KeyInv(Run(es), k);
  }

  /**
   What a waiter gets, over every run: it is woken with the last terminal reply sent to it since it registered,
   an interim "provisioning" tick not counting, and an exec waiter with exactly what was sent to each of its
   two output streams, in order. Cancelled, it leaves its reply behind exactly if it is a patch or an approval.
   */
  lemma ReplyIsWhatWasSent(es: seq<Event>, k: Key)
    requires FreshIds(es) && k in Run(es).registered
    ensures var t, reply := Run(es), LastReply(k, es);
            && k in t.suspended && (t.suspended[k].signalled <==> reply.Some?)
            && (reply.Some? ==>
                  var returned := Next(t, Wake(k)).returned;
                  && k in returned
                  && returned[k] == Some(if k.kind == Exec
                       then Output(Buffers(Said(k, es, false), Said(k, es, true)), reply.value)
                       else Answer(reply.value)))
            && (k in Next(t, Cancel(k)).results <==> reply.Some? && k.kind in {Patch, Approval})
  {
    WaitersAreIndependent(es, k);
    RunKeeps(es);
    assert KeyInv(Run(es), k);
    AloneHolds(k, es);
    hide Run, FreshIds, Alone, Said, LastReply;
  }

  /** A waiter whose session disconnected: still to be resumed, or gone without a reply. */
  predicate IsLost(v: View) {
    v.Lost? || v == Returned(None) || v == Cancelled(None)
  }

  lemma {:induction false} LostForGood(k: Key, es: seq<Event>, more: seq<Event>)
    requires IsLost(Alone(k, es))
    ensures IsLost(Alone(k, es + more))
    decreases |more|
  {
    if more == [] {
      assert es + more == es;
    } else {
      assert (es + more)[..|es + more| - 1] == es + more[..|more| - 1];
      LostForGood(k, es, more[..|more| - 1]);
    }
  }

  lemma {:induction false} FreshPrefix(es: seq<Event>, more: seq<Event>)
    requires FreshIds(es + more)
    ensures FreshIds(es)
    decreases |more|
  {
    if more == [] {
      assert es + more == es;
    } else {
      assert (es + more)[..|es + more| - 1] == es + more[..|more| - 1];
      FreshPrefix(es, more[..|more| - 1]);
    }
  }

  /**
   No waiter of a disconnected session stays blocked, whatever happens afterwards: for as long as it is
   suspended its event is set and it is unregistered, and if it returns it returns nothing.
   */
  lemma DisconnectWakesAll(es: seq<Event>, sid: SessionId, more: seq<Event>, k: Key)
    requires FreshIds(es + [Reap(sid)] + more)
    requires k in Run(es).suspended && Run(es).suspended[k].session == sid
    ensures var t := Run(es + [Reap(sid)] + more);
            && (k in t.suspended ==> t.suspended[k].signalled && k !in t.registered && Next(t, Wake(k)).returned[k] == None)
            && (k in t.returned ==> t.returned[k] == None)
            && (k in t.suspended || k in t.returned || k in t.cancelled)
  {
    hide Next, Reaped, Registered, Resolved;
    var fs := es + [Reap(sid)];
    FreshPrefix(fs, more);
    FreshPrefix(es, [Reap(sid)]);
    assert fs[..|fs| - 1] == es;
    WaitersAreIndependent(es, k);
    LostForGood(k, fs, more);
    WaitersAreIndependent(fs + more, k);
    RunKeeps(fs + more);
    LostReturnsNothing(Run(fs + more), k);
  }

  lemma LostReturnsNothing(t: Table, k: Key)
    requires Inv(t) && IsLost(ViewOf(t, k))
    ensures k in t.suspended ==> t.suspended[k].signalled && k !in t.registered && Next(t, Wake(k)).returned[k] == None
    ensures k in t.returned ==> t.returned[k] == None
    ensures k in t.suspended || k in t.returned || k in t.cancelled
  {
    assert KeyInv(t, k);
  }

  /** A patch wait cancelled after its ack, at its smallest: the ack stays behind. */
  lemma CancelledWaitLeavesItsReply(id: Id, sid: SessionId, value: Value)
    ensures var k := Key(Patch, id);
            var es := [Register(k, sid), Resolve(k, value), Cancel(k)];
            && FreshIds(es) && LeftBehind(es, k)
            && Run(es).suspended == map[] && Run(es).results == map[k := value]
  {
    hide LeftBehind;
    var k := Key(Patch, id);
    var e1, e2 := [Register(k, sid)], [Register(k, sid), Resolve(k, value)];
    var e3 := [Register(k, sid), Resolve(k, value), Cancel(k)];
    assert e1[..0] == [] && e2[..1] == e1 && e3[..2] == e2;
    FreshPatch(id, sid, value);
    CancelledRun(id, sid, value);
    OrphansAreLeftBehind(e3, k);
  }

  lemma FreshPatch(id: Id, sid: SessionId, value: Value)
    ensures var k := Key(Patch, id); FreshIds([Register(k, sid), Resolve(k, value), Cancel(k)])
  {
    var k := Key(Patch, id);
    var e1, e2 := [Register(k, sid)], [Register(k, sid), Resolve(k, value)];
    var e3 := [Register(k, sid), Resolve(k, value), Cancel(k)];
    hide Registered, Resolved, Finished, Reaped;
    assert Run([]) == Empty;
    assert e1[..0] == [] && e2[..1] == e1 && e3[..2] == e2;
    assert FreshIds(e1) by { assert FreshIds([]); }
    assert FreshIds(e2);
  }

  lemma CancelledRun(id: Id, sid: SessionId, value: Value)
    ensures var k := Key(Patch, id);
            var t := Run([Register(k, sid), Resolve(k, value), Cancel(k)]);
            && t.suspended == map[] && t.results == map[k := value] && k !in t.registered
  {
    var k := Key(Patch, id);
    var e1, e2 := [Register(k, sid)], [Register(k, sid), Resolve(k, value)];
    var e3 := [Register(k, sid), Resolve(k, value), Cancel(k)];
    assert e1[..0] == [] && e2[..1] == e1 && e3[..2] == e2;
    assert Run([]) == Empty;
    var t1 := Registered(Empty, k, sid);
    assert Run(e1) == t1;
    var t2 := Resolved(t1, k, value);
    assert Run(e2) == t2;
    assert Run(e3) == Finished(t2, k, false).(cancelled := t2.cancelled + {k});
  }

  /** `k` was cancelled after its reply arrived, in a wait that does not drop the reply. */
  predicate LeftBehind(es: seq<Event>, k: Key) {
    Alone(k, es).Cancelled? && Alone(k, es).leftover.Some?
  }

  /** A result without a registered waiter is one a cancelled patch or approval wait left behind. */
  lemma OrphansAreLeftBehind(es: seq<Event>, k: Key)
    requires FreshIds(es)
    ensures k in Run(es).results && k !in Run(es).registered <==> LeftBehind(es, k)
  {
    WaitersAreIndependent(es, k);
    RunKeeps(es);
    assert KeyInv(Run(es), k);
  }

  lemma QuiescentIndexesAreEmpty(t: Table)
    requires Inv(t) && t.suspended == map[]
    ensures t.registered == {} && t.buffers == map[] && t.pending == map[]
  {
    forall k
      ensures k !in t.registered
    {
      assert KeyInv(t, k);
    }
    forall id
      ensures id !in t.buffers
    {
      assert BufferInv(t, id);
    }
    forall index, sid, id
      ensures id !in PendingOf(t.pending, index, sid)
    {
      assert IndexInv(t, index, sid, id);
    }
    assert forall p :: p in t.pending ==> PendingOf(t.pending, p.0, p.1) == t.pending[p];
  }

  /** With no waiter suspended every table is empty again, but for the replies left behind. */
  lemma QuiescentTablesAreEmpty(es: seq<Event>)
    requires FreshIds(es) && Run(es).suspended == map[]
    ensures var t := Run(es);
            && t.registered == {} && t.buffers == map[] && t.pending == map[]
            && (t.results == map[] <==> forall k :: !LeftBehind(es, k))
  {
    hide Run, LeftBehind;
    var t := Run(es);
    RunKeeps(es);
    QuiescentIndexesAreEmpty(t);
    forall k
      ensures k in t.results <==> LeftBehind(es, k)
    {
      OrphansAreLeftBehind(es, k);
    }
    if forall k :: !LeftBehind(es, k) {
      assert t.results.Keys == {};
    }
  }
}
