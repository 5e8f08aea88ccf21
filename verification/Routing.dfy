/**
 The routing table of the connection manager. One physical socket, connected under a
 connection id, serves many sessions: each session id is aliased onto the socket, and a
 reverse index remembers which aliases a connection owns so that its close can reap them.
 */
module Routing {
  import opened Prelude

  type Id = string
  type Socket = nat

  type Aliases = map<Id, set<Id>>

  datatype Routes = Routes(active: map<Id, Socket>, aliases: Aliases)

  datatype Event =
    | Connect(conn: Id, socket: Socket)
    | Alias(session: Id, conn: Id)
    | Send(target: Id)                              // re-aliases an unrouted target if it can
    | Disconnect(conn: Id, closed: Option<Socket>)

  function OwnedBy(aliases: Aliases, conn: Id): set<Id> {
    if conn in aliases then aliases[conn] else {}
  }

  /** All ids aliased onto some connection. */
  function Aliased(aliases: Aliases): set<Id> {
    set c, s | c in aliases && s in aliases[c] :: s
  }

  /** The routed ids that are aliases of nothing: the physical connections. */
  function Physical(r: Routes): set<Id> {
    set c | c in r.active && c !in Aliased(r.aliases)
  }

  function Aliasing(r: Routes, session: Id, conn: Id): Routes {
    if conn !in r.active then r
    else Routes(r.active[session := r.active[conn]],
                r.aliases[conn := OwnedBy(r.aliases, conn) + {session}])
  }

  /** A close that arrives for a socket already replaced by a reconnect. */
  predicate Stale(r: Routes, conn: Id, closed: Option<Socket>) {
    closed.Some? && conn in r.active && r.active[conn] != closed.value
  }

  function Owned(r: Routes, conn: Id): set<Id> {
    {conn} + OwnedBy(r.aliases, conn)
  }

  function Closed(r: Routes, conn: Id): Routes {
    Routes(r.active - Owned(r, conn), r.aliases - {conn})
  }

  /** The only member of a set, if it has exactly one. */
  ghost function Sole(s: set<Id>): (c: Option<Id>)
    ensures c.Some? ==> s == {c.value}
    ensures c.None? ==> forall x :: s != {x}
  {
    if x :| s == {x} then Some(x) else None
  }

  /** With exactly one physical connection the destination is unambiguous. */
  ghost function Recovered(r: Routes, target: Id): Routes {
    match Sole(Physical(r))
    case Some(c) => Aliasing(r, target, c)
    case None => r
  }

  ghost function Next(r: Routes, e: Event): Routes {
    match e
    case Connect(conn, socket) => r.(active := r.active[conn := socket])
    case Alias(session, conn) => Aliasing(r, session, conn)
    case Send(target) => if target in r.active then r else Recovered(r, target)
    case Disconnect(conn, closed) => if Stale(r, conn, closed) then r else Closed(r, conn)
  }

  ghost function Run(es: seq<Event>): Routes {
    if es == [] then Routes(map[], map[]) else Next(Run(es[..|es| - 1]), es[|es| - 1])
  }

  // ---------------------------------------------------------------------
  // The dictionaries
  // ---------------------------------------------------------------------

  class RoutingTable {
    var active: map<Id, Socket>
    var aliases: Aliases

    ghost function Table(): Routes
      reads this
    {
      Routes(active, aliases)
    }

    constructor ()
      ensures Table() == Routes(map[], map[])
    {
      active, aliases := map[], map[];
    }

    method Accept(conn: Id, socket: Socket)
      modifies this
      ensures Table() == Next(old(Table()), Connect(conn, socket))
    {
      active := active[conn := socket];
    }

    method RegisterAlias(session: Id, conn: Id)
      modifies this
      ensures Table() == Next(old(Table()), Alias(session, conn))
    {
      if conn !in active {
        return;
      }
      var socket := active[conn];
      active := active[session := socket];
      aliases := aliases[conn := OwnedBy(aliases, conn) + {session}];
    }

    /** Collects the aliases of all connections, then looks for the sole id outside them. */
    method RecoverAlias(target: Id) returns (ok: bool)
      modifies this
      ensures ok <==> |Physical(old(Table()))| == 1
      ensures ok ==> target in active
      ensures Table() == Recovered(old(Table()), target)
    {
      var aliased, rest: set<Id> := {}, aliases.Keys;
      while rest != {}
        invariant rest <= aliases.Keys
        invariant forall s :: s in aliased <==> exists c :: c in aliases && c !in rest && s in aliases[c]
        decreases rest
      {
        var c :| c in rest;
        aliased, rest := aliased + aliases[c], rest - {c};
      }
      var live := set c | c in active && c !in aliased;
      assert live == Physical(Table());
      SoleMember(live);
      if |live| != 1 {
        return false;
      }
      var c :| c in live;
      RegisterAlias(target, c);
      return true;
    }

    method Deliver(target: Id) returns (socket: Option<Socket>)
      modifies this
      ensures Table() == Next(old(Table()), Send(target))
      ensures socket == if target in active then Some(active[target]) else None
    {
      if target !in active {
        var recovered := RecoverAlias(target);
        if !recovered {
          return None;
        }
      }
      return Some(active[target]);
    }

    /** Returns the ids whose state is to be reaped with the connection. */
    method Disconnect(conn: Id, closed: Option<Socket>) returns (owned: set<Id>)
      modifies this
      ensures Table() == Next(old(Table()), Event.Disconnect(conn, closed))
      ensures owned == if Stale(old(Table()), conn, closed) then {} else Owned(old(Table()), conn)
    {
      if closed.Some? && conn in active && active[conn] != closed.value {
        return {};
      }
      owned := {conn} + OwnedBy(aliases, conn);
      aliases := aliases - {conn};
      var rest := owned;
      while rest != {}
        invariant rest <= owned
        invariant active == old(active) - (owned - rest) && aliases == old(aliases) - {conn}
        decreases rest
      {
        var cid :| cid in rest;
        active := active - {cid};
        rest := rest - {cid};
        assert active == old(active) - (owned - rest);
      }
      assert owned - rest == owned;
    }
  }

  lemma SoleMember(s: set<Id>)
    ensures |s| == 1 <==> exists c :: s == {c}
  {
    if |s| == 1 {
      var c :| c in s;
      assert |s - {c}| == 0;
      assert s == {c};
    }
  }

  // ---------------------------------------------------------------------
  // Whole runs
  // ---------------------------------------------------------------------

  /** The connections that are open, each with its current socket. */
  ghost function Open(es: seq<Event>): map<Id, Socket> {
    if es == [] then map[] else OpenNext(Open(es[..|es| - 1]), es[|es| - 1])
  }

  function OpenNext(open: map<Id, Socket>, e: Event): map<Id, Socket> {
    match e
    case Connect(conn, socket) => open[conn := socket]
    case Disconnect(conn, closed) => if Outdated(open, conn, closed) then open else open - {conn}
    case _ => open
  }

  /** The socket that closes is not the connection's current one. */
  predicate Outdated(open: map<Id, Socket>, conn: Id, closed: Option<Socket>) {
    closed.Some? && conn in open && open[conn] != closed.value
  }

  /** The event uses connection ids and session ids apart; a message may go to either. */
  predicate Apart(e: Event, conns: set<Id>) {
    match e
    case Connect(conn, _) => conn in conns
    case Alias(session, conn) => session !in conns && conn in conns
    case Send(_) => true
    case Disconnect(conn, _) => conn in conns
  }

  ghost predicate Separate(es: seq<Event>, conns: set<Id>) {
    forall k :: 0 <= k < |es| ==> Apart(es[k], conns)
  }

  lemma SeparatePrefix(es: seq<Event>, conns: set<Id>)
    requires es != [] && Separate(es, conns)
    ensures Separate(es[..|es| - 1], conns) && Apart(es[|es| - 1], conns)
  {
  }

  // ---------------------------------------------------------------------
  // Connections on their own
  // ---------------------------------------------------------------------

  /**
   The part of the table that concerns connection ids. A message to an unrouted connection id makes
   the sole physical connection adopt it, as an alias.
   */
  datatype Trunk = Trunk(route: map<Id, Socket>, adopted: set<(Id, Id)>)

  function AdoptedBy(t: Trunk, conn: Id): set<Id> {
    set p | p in t.adopted && p.0 == conn :: p.1
  }

  ghost predicate IsAdopted(t: Trunk, conn: Id) {
    exists p :: p in t.adopted && p.1 == conn
  }

  /** The routed connection ids that are aliases of nothing. */
  ghost function Standalone(t: Trunk): set<Id> {
    set c | c in t.route && !IsAdopted(t, c)
  }

  predicate TrunkStale(t: Trunk, conn: Id, closed: Option<Socket>) {
    Outdated(t.route, conn, closed)
  }

  ghost function TrunkNext(t: Trunk, conns: set<Id>, e: Event): Trunk {
    match e
    case Connect(conn, socket) => t.(route := t.route[conn := socket])
    case Alias(_, _) => t
    case Send(target) => (
      match Sole(Standalone(t))
      case Some(c) =>
        if target in conns && target !in t.route && c in t.route
        then Trunk(t.route[target := t.route[c]], t.adopted + {(c, target)}) else t
      case None => t
    )
    case Disconnect(conn, closed) =>
      if TrunkStale(t, conn, closed) then t
      else Trunk(t.route - ({conn} + AdoptedBy(t, conn)), set p | p in t.adopted && p.0 != conn)
  }

  ghost function TrunkRun(es: seq<Event>, conns: set<Id>): Trunk {
    if es == [] then Trunk(map[], {}) else TrunkNext(TrunkRun(es[..|es| - 1], conns), conns, es[|es| - 1])
  }

  ghost function TrunkOf(r: Routes, conns: set<Id>): Trunk {
    Trunk(map c | c in r.active && c in conns :: r.active[c],
          set c, x | c in r.aliases && x in r.aliases[c] && x in conns :: (c, x))
  }

  /** Only connections own aliases, and a routed session is an alias. */
  ghost predicate Shape(r: Routes, conns: set<Id>) {
    && (forall c :: c in r.aliases ==> c in conns)
    && (forall s :: s in r.active && s !in conns ==> s in Aliased(r.aliases))
  }

  lemma PhysicalIsStandalone(r: Routes, conns: set<Id>)
    requires Shape(r, conns)
    ensures Physical(r) == Standalone(TrunkOf(r, conns))
  {
    var t := TrunkOf(r, conns);
    forall c
      ensures c in Physical(r) <==> c in Standalone(t)
    {
      if c in Aliased(r.aliases) && c in conns {
        var o :| o in r.aliases && c in r.aliases[o];
        assert (o, c) in t.adopted;
      }
    }
  }

  lemma AliasingShape(r: Routes, conns: set<Id>, session: Id, conn: Id)
    requires Shape(r, conns) && conn in conns
    ensures Shape(Aliasing(r, session, conn), conns)
  {
    var t := Aliasing(r, session, conn);
    forall s | s in t.active && s !in conns
      ensures s in Aliased(t.aliases)
    {
      if s != session || conn !in r.active {
        assert s in Aliased(r.aliases);
        var c :| c in r.aliases && s in r.aliases[c];
        assert c in t.aliases && s in t.aliases[c];
      } else {
        assert conn in t.aliases && s in t.aliases[conn];
      }
    }
  }

  lemma AliasingTrunk(r: Routes, conns: set<Id>, session: Id, conn: Id)
    requires conn in conns && conn in r.active
    ensures var t := TrunkOf(r, conns);
            TrunkOf(Aliasing(r, session, conn), conns)
            == if session in conns then Trunk(t.route[session := t.route[conn]], t.adopted + {(conn, session)}) else t
  {
    var u := TrunkOf(Aliasing(r, session, conn), conns);
    var t := TrunkOf(r, conns);
    if session in conns {
      assert u.adopted == t.adopted + {(conn, session)};
    } else {
      assert u.adopted == t.adopted;
    }
  }

  lemma ClosedShape(r: Routes, conns: set<Id>, conn: Id)
    requires Shape(r, conns) && conn in conns
    ensures Shape(Closed(r, conn), conns)
  {
    var t := Closed(r, conn);
    forall s | s in t.active && s !in conns
      ensures s in Aliased(t.aliases)
    {
      assert s in Aliased(r.aliases);
      var c :| c in r.aliases && s in r.aliases[c];
      assert c in t.aliases && s in t.aliases[c];
    }
  }

  lemma ClosedTrunk(r: Routes, conns: set<Id>, conn: Id)
    requires conn in conns
    ensures var t := TrunkOf(r, conns);
            TrunkOf(Closed(r, conn), conns)
            == Trunk(t.route - ({conn} + AdoptedBy(t, conn)), set p | p in t.adopted && p.0 != conn)
  {
    var t, u := TrunkOf(r, conns), TrunkOf(Closed(r, conn), conns);
    forall x | x in conns
      ensures x in AdoptedBy(t, conn) <==> x in OwnedBy(r.aliases, conn)
    {
      if x in OwnedBy(r.aliases, conn) {
        assert (conn, x) in t.adopted;
      }
    }
    assert u.route == t.route - ({conn} + AdoptedBy(t, conn));
    assert u.adopted == set p | p in t.adopted && p.0 != conn;
  }

  /** One event: the table keeps its shape, and its connection part moves by itself. */
  lemma NextTrunk(r: Routes, conns: set<Id>, e: Event)
    requires Shape(r, conns) && Apart(e, conns)
    ensures Shape(Next(r, e), conns)
    ensures TrunkOf(Next(r, e), conns) == TrunkNext(TrunkOf(r, conns), conns, e)
  {
    hide Aliasing, Closed, Shape, Standalone, Physical;
    match e
    case Connect(conn, socket) => ConnectTrunk(r, conns, conn, socket);
    case Alias(session, conn) => AliasTrunk(r, conns, session, conn);
    case Send(target) => SendTrunk(r, conns, target);
    case Disconnect(conn, closed) =>
      ClosedShape(r, conns, conn);
      ClosedTrunk(r, conns, conn);
  }

  lemma ConnectTrunk(r: Routes, conns: set<Id>, conn: Id, socket: Socket)
    requires Shape(r, conns) && conn in conns
    ensures var u, t := Next(r, Connect(conn, socket)), TrunkOf(r, conns);
            Shape(u, conns) && TrunkOf(u, conns) == t.(route := t.route[conn := socket])
  {
  }

  lemma AliasTrunk(r: Routes, conns: set<Id>, session: Id, conn: Id)
    requires Shape(r, conns) && session !in conns && conn in conns
    ensures var u := Aliasing(r, session, conn);
            Shape(u, conns) && TrunkOf(u, conns) == TrunkOf(r, conns)
  {
    AliasingShape(r, conns, session, conn);
    if conn in r.active {
      AliasingTrunk(r, conns, session, conn);
    }
  }

  lemma SendTrunk(r: Routes, conns: set<Id>, target: Id)
    requires Shape(r, conns)
    ensures var u := Next(r, Send(target));
            Shape(u, conns) && TrunkOf(u, conns) == TrunkNext(TrunkOf(r, conns), conns, Send(target))
  {
    PhysicalIsStandalone(r, conns);
    var t := TrunkOf(r, conns);
    match Sole(Standalone(t)) {
      case Some(c) =>
        assert c in Standalone(t);
        AliasingShape(r, conns, target, c);
        AliasingTrunk(r, conns, target, c);
      case None =>
    }
  }

  /** Refinement: the connections' part of the table depends on no session. */
  lemma {:induction false} TrunkIsIndependent(es: seq<Event>, conns: set<Id>)
    requires Separate(es, conns)
    ensures Shape(Run(es), conns) && TrunkOf(Run(es), conns) == TrunkRun(es, conns)
  {
    hide Next, TrunkNext, Shape;
    if es == [] {
      EmptyTrunk(conns);
    } else {
      SeparatePrefix(es, conns);
      TrunkIsIndependent(es[..|es| - 1], conns);
      NextTrunk(Run(es[..|es| - 1]), conns, es[|es| - 1]);
    }
  }

  lemma EmptyTrunk(conns: set<Id>)
    ensures Shape(Run([]), conns) && TrunkOf(Run([]), conns) == Trunk(map[], {})
  {
  }

  // ---------------------------------------------------------------------
  // Where an open connection is routed
  // ---------------------------------------------------------------------

  /** The sockets connected so far. */
  function Used(es: seq<Event>): set<Socket> {
    if es == [] then {}
    else Used(es[..|es| - 1]) + if es[|es| - 1].Connect? then {es[|es| - 1].socket} else {}
  }

  /** Every connect brings a new socket object. */
  ghost predicate FreshSockets(es: seq<Event>) {
    es == [] || (FreshSockets(es[..|es| - 1]) && IsFresh(Used(es[..|es| - 1]), es[|es| - 1]))
  }

  predicate IsFresh(used: set<Socket>, e: Event) {
    e.Connect? ==> e.socket !in used
  }

  /** A connection id is routed to its own socket, to none, or to the socket of one that adopted it. */
  datatype Standing = Own | Unrouted | Elsewhere

  /** What one event does to the standing of `conn`. */
  ghost function StandingNext(v: Standing, t: Trunk, e: Event, conn: Id): Standing {
    match e
    case Connect(c, _) => if c == conn then Own else v
    case Alias(_, _) => v
    case Send(target) => if target == conn && v == Unrouted && Sole(Standalone(t)).Some? then Elsewhere else v
    case Disconnect(c, closed) =>
      if TrunkStale(t, c, closed) then v
      else if c == conn || (c, conn) in t.adopted then Unrouted else v
  }

  ghost function StandingOf(es: seq<Event>, conns: set<Id>, conn: Id): Standing {
    if es == [] then Unrouted
    else
      var init := es[..|es| - 1];
      StandingNext(StandingOf(init, conns, conn), TrunkRun(init, conns), es[|es| - 1], conn)
  }

  /** The standing of `conn` is what the routes and the open connections say. */
  ghost predicate StandsAs(t: Trunk, open: map<Id, Socket>, conn: Id, v: Standing) {
    && (v == Own ==> conn in open && conn in t.route && t.route[conn] == open[conn])
    && (v == Unrouted <==> conn !in t.route)
    && (v == Elsewhere && conn in open ==> t.route[conn] != open[conn])
  }

  /** Sockets are told apart, and an id that nothing adopted is routed to its own socket. */
  ghost predicate Sockets(t: Trunk, open: map<Id, Socket>, used: set<Socket>) {
    && (forall c :: c in open ==> open[c] in used)
    && (forall c :: c in t.route ==> t.route[c] in used)
    && (forall c, d :: c in open && d in open && c != d ==> open[c] != open[d])
    && (forall c :: c in Standalone(t) ==> c in open && open[c] == t.route[c])
    && (forall p :: p in t.adopted ==> p.0 != p.1)
  }

  lemma ConnectSockets(t: Trunk, open: map<Id, Socket>, used: set<Socket>, conns: set<Id>, conn: Id, socket: Socket)
    requires Sockets(t, open, used) && socket !in used
    ensures Sockets(TrunkNext(t, conns, Connect(conn, socket)), open[conn := socket], used + {socket})
  {
    var u := TrunkNext(t, conns, Connect(conn, socket));
    forall c | c in Standalone(u)
      ensures c in open[conn := socket] && open[conn := socket][c] == u.route[c]
    {
      if c != conn {
        assert c in Standalone(t);
      }
    }
  }

  lemma SendSockets(t: Trunk, open: map<Id, Socket>, used: set<Socket>, conns: set<Id>, target: Id)
    requires Sockets(t, open, used)
    ensures Sockets(TrunkNext(t, conns, Send(target)), open, used)
  {
    var u := TrunkNext(t, conns, Send(target));
    if u != t {
      var c := Sole(Standalone(t)).value;
      assert c in Standalone(t);
      assert (c, target) in u.adopted && forall p :: p in t.adopted ==> p in u.adopted;
      forall x | x in Standalone(u)
        ensures x in open && open[x] == u.route[x]
      {
        assert x != target;
        assert x in Standalone(t);
      }
    }
  }

  lemma DisconnectSockets(t: Trunk, open: map<Id, Socket>, used: set<Socket>, conns: set<Id>,
                          conn: Id, closed: Option<Socket>)
    requires Sockets(t, open, used)
    ensures Sockets(TrunkNext(t, conns, Disconnect(conn, closed)), OpenNext(open, Disconnect(conn, closed)), used)
  {
    var u := TrunkNext(t, conns, Disconnect(conn, closed));
    assert forall p :: p in t.adopted ==> p in u.adopted || p.1 in AdoptedBy(t, conn);
    forall x | x in Standalone(u)
      ensures x in OpenNext(open, Disconnect(conn, closed)) && open[x] == u.route[x]
    {
      assert x in Standalone(t);
    }
  }

  lemma {:induction false} SocketsKept(es: seq<Event>, conns: set<Id>)
    requires Separate(es, conns) && FreshSockets(es)
    ensures Sockets(TrunkRun(es, conns), Open(es), Used(es))
  {
    hide Sockets, TrunkNext, OpenNext;
    if es == [] {
      NoSockets(conns);
    } else {
      var init, e := es[..|es| - 1], es[|es| - 1];
      SeparatePrefix(es, conns);
      SocketsKept(init, conns);
      SocketsStep(TrunkRun(init, conns), Open(init), Used(init), conns, e);
      assert Used(init) + {} == Used(init);
    }
  }

  lemma NoSockets(conns: set<Id>)
    ensures Sockets(TrunkRun([], conns), Open([]), Used([]))
  {
  }

  lemma SocketsStep(t: Trunk, open: map<Id, Socket>, used: set<Socket>, conns: set<Id>, e: Event)
    requires Sockets(t, open, used) && IsFresh(used, e)
    ensures Sockets(TrunkNext(t, conns, e), OpenNext(open, e), if e.Connect? then used + {e.socket} else used)
  {
    hide Sockets;
    match e
    case Connect(conn, socket) => ConnectSockets(t, open, used, conns, conn, socket);
    case Alias(_, _) =>
    case Send(target) => SendSockets(t, open, used, conns, target);
    case Disconnect(conn, closed) => DisconnectSockets(t, open, used, conns, conn, closed);
  }

  lemma StandingStep(t: Trunk, open: map<Id, Socket>, used: set<Socket>, conns: set<Id>, e: Event, conn: Id, v: Standing)
    requires Sockets(t, open, used) && StandsAs(t, open, conn, v) && IsFresh(used, e) && conn in conns
    ensures StandsAs(TrunkNext(t, conns, e), OpenNext(open, e), conn, StandingNext(v, t, e, conn))
  {
    hide Standalone, IsAdopted;
    match e
    case Connect(_, _) =>
    case Alias(_, _) =>
    case Send(target) => SendStanding(t, open, used, conns, target, conn, v);
    case Disconnect(c, closed) =>
      assert conn in AdoptedBy(t, c) <==> (c, conn) in t.adopted;
  }

  lemma SendStanding(t: Trunk, open: map<Id, Socket>, used: set<Socket>, conns: set<Id>, target: Id, conn: Id, v: Standing)
    requires Sockets(t, open, used) && StandsAs(t, open, conn, v) && conn in conns
    ensures StandsAs(TrunkNext(t, conns, Send(target)), open, conn, StandingNext(v, t, Send(target), conn))
  {
    match Sole(Standalone(t)) {
      case Some(c) => assert c in Standalone(t);
      case None =>
    }
  }

  lemma {:induction false} StandingKept(es: seq<Event>, conns: set<Id>, conn: Id)
    requires Separate(es, conns) && FreshSockets(es) && conn in conns
    ensures StandsAs(TrunkRun(es, conns), Open(es), conn, StandingOf(es, conns, conn))
  {
    hide StandsAs, TrunkNext, OpenNext, StandingNext;
    if es == [] {
      NoStanding(conns, conn);
    } else {
      var init, e := es[..|es| - 1], es[|es| - 1];
      SeparatePrefix(es, conns);
      StandingKept(init, conns, conn);
      SocketsKept(init, conns);
      StandingStep(TrunkRun(init, conns), Open(init), Used(init), conns, e, conn, StandingOf(init, conns, conn));
    }
  }

  lemma NoStanding(conns: set<Id>, conn: Id)
    ensures StandsAs(TrunkRun([], conns), Open([]), conn, StandingOf([], conns, conn))
  {
  }

  /** An open connection is routed to its own socket, to none or elsewhere, exactly as its history says. */
  lemma RoutedAsItStands(es: seq<Event>, conns: set<Id>, conn: Id)
    requires Separate(es, conns) && FreshSockets(es) && conn in conns && conn in Open(es)
    ensures var r, socket := Run(es), Open(es)[conn];
            match StandingOf(es, conns, conn)
            case Own => conn in r.active && r.active[conn] == socket
            case Unrouted => conn !in r.active
            case Elsewhere => conn in r.active && r.active[conn] != socket
  {
    TrunkIsIndependent(es, conns);
    StandingKept(es, conns, conn);
    assert conn in TrunkRun(es, conns).route <==> conn in Run(es).active;
  }

  /** The real close of an open connection is taken for stale if and only if it is routed elsewhere. */
  lemma CloseMissedIff(es: seq<Event>, conns: set<Id>, conn: Id)
    requires Separate(es, conns) && FreshSockets(es) && conn in conns && conn in Open(es)
    ensures Stale(Run(es), conn, Some(Open(es)[conn])) <==> StandingOf(es, conns, conn) == Elsewhere
  {
    RoutedAsItStands(es, conns, conn);
  }

  /** How many events there are up to the latest connect of `conn`. */
  function ConnectedAt(es: seq<Event>, conn: Id): (n: nat)
    ensures n <= |es|
  {
    if es == [] then 0
    else if es[|es| - 1].Connect? && es[|es| - 1].conn == conn then |es|
    else ConnectedAt(es[..|es| - 1], conn)
  }

  /** Event `k` closes a connection that has adopted the id of `conn`. */
  ghost predicate Severs(es: seq<Event>, k: nat, conns: set<Id>, conn: Id)
    requires k < |es|
  {
    var t := TrunkRun(es[..k], conns);
    es[k].Disconnect? && (es[k].conn, conn) in t.adopted && !TrunkStale(t, es[k].conn, es[k].closed)
  }

  /** Since it connected, some connection that had adopted its id has closed. */
  ghost predicate CutOff(es: seq<Event>, conns: set<Id>, conn: Id) {
    exists k :: ConnectedAt(es, conn) <= k < |es| && Severs(es, k, conns, conn)
  }

  lemma SeversPrefix(es: seq<Event>, k: nat, conns: set<Id>, conn: Id)
    requires k < |es| - 1
    ensures Severs(es[..|es| - 1], k, conns, conn) == Severs(es, k, conns, conn)
  {
    assert es[..|es| - 1][..k] == es[..k];
  }

  lemma CutOffStep(es: seq<Event>, conns: set<Id>, conn: Id)
    requires es != []
    ensures var n := |es| - 1;
            var connects := es[n].Connect? && es[n].conn == conn;
            CutOff(es, conns, conn) <==> !connects && (CutOff(es[..n], conns, conn) || Severs(es, n, conns, conn))
  {
    hide Severs;
    var n := |es| - 1;
    var init := es[..n];
    forall k | 0 <= k < n
      ensures Severs(init, k, conns, conn) == Severs(es, k, conns, conn)
    {
      SeversPrefix(es, k, conns, conn);
    }
    if CutOff(es, conns, conn) {
      var k :| ConnectedAt(es, conn) <= k < |es| && Severs(es, k, conns, conn);
    }
    if ConnectedAt(es, conn) < |es| && CutOff(init, conns, conn) {
      var k :| ConnectedAt(init, conn) <= k < |init| && Severs(init, k, conns, conn);
      assert Severs(es, k, conns, conn);
    }
  }

  /**
   Exactness, per open connection: it has lost its own route if and only if a connection that had
   adopted its id while it was unrouted has closed since it connected.
   */
  lemma {:induction false} LosesRouteIffCutOff(es: seq<Event>, conns: set<Id>, conn: Id)
    requires Separate(es, conns) && FreshSockets(es) && conn in conns && conn in Open(es)
    ensures StandingOf(es, conns, conn) != Own <==> CutOff(es, conns, conn)
  {
    var n := |es| - 1;
    var init, e := es[..n], es[n];
    SeparatePrefix(es, conns);
    CutOffStep(es, conns, conn);
    StandingKept(init, conns, conn);
    SocketsKept(init, conns);
    if conn in Open(init) {
      LosesRouteIffCutOff(init, conns, conn);
    }
    hide CutOff, Standalone, FreshSockets;
    assert es[..n] == init;
  }

  /** Event `j` makes `c` adopt the id of `conn`: a message to it while it is unrouted and `c` stands alone. */
  ghost predicate Adopts(es: seq<Event>, j: nat, conns: set<Id>, c: Id, conn: Id)
    requires j < |es|
  {
    var t := TrunkRun(es[..j], conns);
    es[j] == Send(conn) && conn in conns && conn !in t.route && Sole(Standalone(t)) == Some(c)
  }

  /** Event `k` closes `c`, as far as the table can tell. */
  ghost predicate Closes(es: seq<Event>, k: nat, conns: set<Id>, c: Id)
    requires k < |es|
  {
    es[k].Disconnect? && es[k].conn == c && !TrunkStale(TrunkRun(es[..k], conns), c, es[k].closed)
  }

  ghost predicate AdoptedSince(es: seq<Event>, conns: set<Id>, c: Id, conn: Id) {
    exists j :: 0 <= j < |es| && Adopts(es, j, conns, c, conn)
                && forall k :: j < k < |es| ==> !Closes(es, k, conns, c)
  }

  lemma AdoptedStep(es: seq<Event>, conns: set<Id>, c: Id, conn: Id)
    requires es != []
    ensures var n := |es| - 1;
            AdoptedSince(es, conns, c, conn)
            <==> Adopts(es, n, conns, c, conn) || (AdoptedSince(es[..n], conns, c, conn) && !Closes(es, n, conns, c))
  {
    hide Adopts, Closes;
    var n := |es| - 1;
    var init := es[..n];
    forall k | 0 <= k < n
      ensures Adopts(init, k, conns, c, conn) == Adopts(es, k, conns, c, conn)
      ensures Closes(init, k, conns, c) == Closes(es, k, conns, c)
    {
      AdoptsPrefix(es, k, conns, c, conn);
    }
    if AdoptedSince(es, conns, c, conn) {
      var j :| 0 <= j < |es| && Adopts(es, j, conns, c, conn) && forall k :: j < k < |es| ==> !Closes(es, k, conns, c);
    }
    if AdoptedSince(init, conns, c, conn) && !Closes(es, n, conns, c) {
      var j :| 0 <= j < n && Adopts(init, j, conns, c, conn) && forall k :: j < k < n ==> !Closes(init, k, conns, c);
      assert Adopts(es, j, conns, c, conn);
    }
  }

  lemma AdoptsPrefix(es: seq<Event>, k: nat, conns: set<Id>, c: Id, conn: Id)
    requires k < |es| - 1
    ensures Adopts(es[..|es| - 1], k, conns, c, conn) == Adopts(es, k, conns, c, conn)
    ensures Closes(es[..|es| - 1], k, conns, c) == Closes(es, k, conns, c)
  {
    assert es[..|es| - 1][..k] == es[..k];
  }

  /** One connection has adopted the id of another if and only if such a message came and it has not closed since. */
  lemma {:induction false} AdoptedIff(es: seq<Event>, conns: set<Id>, c: Id, conn: Id)
    ensures (c, conn) in TrunkRun(es, conns).adopted <==> AdoptedSince(es, conns, c, conn)
  {
    if es != [] {
      var n := |es| - 1;
      AdoptedIff(es[..n], conns, c, conn);
      AdoptedStep(es, conns, c, conn);
      hide AdoptedSince, TrunkRun, IsAdopted;
      AdoptionStep(TrunkRun(es[..n], conns), conns, es[n], c, conn);
      TrunkSnoc(es, conns);
    }
  }

  lemma TrunkSnoc(es: seq<Event>, conns: set<Id>)
    requires es != []
    ensures TrunkRun(es, conns) == TrunkNext(TrunkRun(es[..|es| - 1], conns), conns, es[|es| - 1])
  {
  }

  lemma AdoptionStep(t: Trunk, conns: set<Id>, e: Event, c: Id, conn: Id)
    ensures (c, conn) in TrunkNext(t, conns, e).adopted
       <==> (e == Send(conn) && conn in conns && conn !in t.route && Sole(Standalone(t)) == Some(c))
            || ((c, conn) in t.adopted && !(e.Disconnect? && e.conn == c && !TrunkStale(t, c, e.closed)))
  {
    if e.Send? && Sole(Standalone(t)).Some? {
      assert Sole(Standalone(t)).value in Standalone(t);
    }
  }

  // ---------------------------------------------------------------------
  // Leaks
  // ---------------------------------------------------------------------

  /** Every routed id is an open connection on its own socket or an alias recorded under a connection. */
  lemma RoutesAreAccountedFor(es: seq<Event>, conns: set<Id>)
    requires Separate(es, conns) && FreshSockets(es)
    ensures var r, open := Run(es), Open(es);
            && (forall c :: c in r.aliases ==> c in conns)
            && forall id :: id in r.active ==>
                 (id in open && r.active[id] == open[id]) || (exists c :: c in r.aliases && id in r.aliases[c])
  {
    var r := Run(es);
    TrunkIsIndependent(es, conns);
    SocketsKept(es, conns);
    PhysicalIsStandalone(r, conns);
    hide Run, TrunkRun, Open, Separate, FreshSockets;
    forall id | id in r.active
      ensures (id in Open(es) && r.active[id] == Open(es)[id]) || (exists c :: c in r.aliases && id in r.aliases[c])
    {
      if id !in Aliased(r.aliases) {
        assert id in Physical(r);
        assert id in Standalone(TrunkOf(r, conns));
      }
    }
  }

  /** Aliases are recorded under open connections only. */
  predicate Tidy(r: Routes, open: map<Id, Socket>) {
    r.aliases.Keys <= open.Keys
  }

  /** With every connection closed, a tidy table is empty. */
  lemma TidyEndsEmpty(es: seq<Event>, conns: set<Id>)
    requires Separate(es, conns) && FreshSockets(es) && Tidy(Run(es), Open(es)) && Open(es) == map[]
    ensures Run(es) == Routes(map[], map[])
  {
    RoutesAreAccountedFor(es, conns);
  }

  /**
   The events that leave aliases behind: the real close of a connection with aliases is taken for
   stale, or a session is announced for a connection id that is routed but not open.
   */
  predicate Leaks(r: Routes, open: map<Id, Socket>, e: Event) {
    match e
    case Alias(_, conn) => conn in r.active && conn !in open
    case Disconnect(conn, closed) =>
      conn in open && !Outdated(open, conn, closed) && Stale(r, conn, closed) && conn in r.aliases
    case _ => false
  }

  lemma TidyStep(r: Routes, open: map<Id, Socket>, used: set<Socket>, conns: set<Id>, e: Event)
    requires Shape(r, conns) && Sockets(TrunkOf(r, conns), open, used) && Tidy(r, open)
    ensures Tidy(Next(r, e), OpenNext(open, e)) <==> !Leaks(r, open, e)
  {
    PhysicalIsStandalone(r, conns);
    hide Shape, Standalone, TrunkOf, Physical;
    match e
    case Alias(_, conn) => assert conn in r.active ==> conn in Next(r, e).aliases;
    case Send(_) =>
      var c := Sole(Physical(r));
      assert c.Some? ==> c.value in Physical(r);
    case _ =>
  }

  ghost predicate LeaksAt(es: seq<Event>, k: nat)
    requires k < |es|
  {
    Leaks(Run(es[..k]), Open(es[..k]), es[k])
  }

  ghost predicate TidyAt(es: seq<Event>, k: nat)
    requires k <= |es|
  {
    Tidy(Run(es[..k]), Open(es[..k]))
  }

  /** Nothing leaks, at any point of a run, if and only if none of its events leaves aliases behind. */
  lemma {:induction false} NoLeakIff(es: seq<Event>, conns: set<Id>)
    requires Separate(es, conns) && FreshSockets(es)
    ensures (forall k :: 0 <= k <= |es| ==> TidyAt(es, k)) <==> (forall k :: 0 <= k < |es| ==> !LeaksAt(es, k))
  {
    hide TidyAt, LeaksAt;
    if es == [] {
      TidyAtStart(es);
    } else {
      var n := |es| - 1;
      SeparatePrefix(es, conns);
      NoLeakIff(es[..n], conns);
      TidyAtEnd(es, conns);
      hide Separate, FreshSockets;
      forall k | 0 <= k < n
        ensures TidyAt(es[..n], k) == TidyAt(es, k) && LeaksAt(es[..n], k) == LeaksAt(es, k)
      {
        LeaksInPrefix(es, k);
      }
    }
  }

  lemma TidyAtStart(es: seq<Event>)
    ensures TidyAt(es, 0)
  {
  }

  lemma TidyAtEnd(es: seq<Event>, conns: set<Id>)
    requires es != [] && Separate(es, conns) && FreshSockets(es)
    ensures var n := |es| - 1;
            && TidyAt(es, n) == TidyAt(es[..n], n)
            && (TidyAt(es, n) ==> (TidyAt(es, |es|) <==> !LeaksAt(es, n)))
  {
    hide Tidy, Leaks, Next, OpenNext, Shape, Sockets;
    var n := |es| - 1;
    var init := es[..n];
    assert es[..|es|] == es && init[..n] == init;
    SeparatePrefix(es, conns);
    TrunkIsIndependent(init, conns);
    SocketsKept(init, conns);
    if Tidy(Run(init), Open(init)) {
      TidyStep(Run(init), Open(init), Used(init), conns, es[n]);
    }
  }

  lemma LeaksInPrefix(es: seq<Event>, k: nat)
    requires k < |es| - 1
    ensures TidyAt(es[..|es| - 1], k) == TidyAt(es, k) && LeaksAt(es[..|es| - 1], k) == LeaksAt(es, k)
  {
    assert es[..|es| - 1][..k] == es[..k];
  }

  /**
   An unrouted message gets a route if and only if exactly one open connection is on its own socket
   and adopted by no other.
   */
  lemma RecoversIffSoleOwnConnection(es: seq<Event>, conns: set<Id>, target: Id)
    requires Separate(es, conns) && FreshSockets(es)
    ensures target in Next(Run(es), Send(target)).active
       <==> target in Run(es).active || Sole(OwnConnections(es, conns)).Some?
  {
    var r := Run(es);
    TrunkIsIndependent(es, conns);
    PhysicalIsStandalone(r, conns);
    StandaloneAreOwn(es, conns);
    var c := Sole(Physical(r));
    assert c.Some? ==> c.value in Physical(r);
  }

  /** The open connections on their own socket whose id no connection has adopted. */
  ghost function OwnConnections(es: seq<Event>, conns: set<Id>): set<Id> {
    set c | c in Open(es) && c in conns && StandingOf(es, conns, c) == Own && !IsAdopted(TrunkRun(es, conns), c)
  }

  lemma StandaloneAreOwn(es: seq<Event>, conns: set<Id>)
    requires Separate(es, conns) && FreshSockets(es)
    ensures Standalone(TrunkRun(es, conns)) == OwnConnections(es, conns)
  {
    var t := TrunkRun(es, conns);
    TrunkIsIndependent(es, conns);
    SocketsKept(es, conns);
    hide Run, TrunkRun, Open, StandingOf, Separate, FreshSockets;
    forall c
      ensures c in Standalone(t) <==> c in OwnConnections(es, conns)
    {
      if c in conns {
        StandingKept(es, conns, c);
      }
    }
  }

  // ---------------------------------------------------------------------
  // One session on its own
  // ---------------------------------------------------------------------

  /** Where a session is routed, and the connections whose close will reap it. */
  datatype View = View(route: Option<Socket>, owners: set<Id>)

  function ViewOf(r: Routes, s: Id): View {
    View(if s in r.active then Some(r.active[s]) else None, set c | c in r.aliases && s in r.aliases[c])
  }

  function Attached(v: View, t: Trunk, conn: Id): View {
    if conn in t.route then View(Some(t.route[conn]), v.owners + {conn}) else v
  }

  /** The session's own view of one event, given the routes of the connections before it. */
  ghost function Step(s: Id, v: View, t: Trunk, e: Event): View {
    match e
    case Connect(_, _) => v
    case Alias(session, conn) => if session == s then Attached(v, t, conn) else v
    case Send(target) => (
      match Sole(Standalone(t))
      case Some(c) => if target == s && v.route == None then Attached(v, t, c) else v
      case None => v
    )
    case Disconnect(conn, closed) =>
      if TrunkStale(t, conn, closed) || conn !in v.owners then v else View(None, v.owners - {conn})
  }

  ghost function Follow(s: Id, es: seq<Event>, conns: set<Id>): View {
    if es == [] then View(None, {})
    else Step(s, Follow(s, es[..|es| - 1], conns), TrunkRun(es[..|es| - 1], conns), es[|es| - 1])
  }

  lemma AliasingView(r: Routes, conns: set<Id>, s: Id, session: Id, conn: Id)
    requires conn in conns && s !in conns
    ensures ViewOf(Aliasing(r, session, conn), s)
         == if session == s then Attached(ViewOf(r, s), TrunkOf(r, conns), conn) else ViewOf(r, s)
  {
  }

  lemma NextView(r: Routes, conns: set<Id>, s: Id, e: Event)
    requires Shape(r, conns) && s !in conns && Apart(e, conns)
    ensures ViewOf(Next(r, e), s) == Step(s, ViewOf(r, s), TrunkOf(r, conns), e)
  {
    match e
    case Connect(_, _) =>
    case Alias(session, conn) => AliasingView(r, conns, s, session, conn);
    case Send(target) => SendView(r, conns, s, target);
    case Disconnect(conn, closed) => CloseView(r, conns, s, conn, closed);
  }

  lemma SendView(r: Routes, conns: set<Id>, s: Id, target: Id)
    requires Shape(r, conns) && s !in conns
    ensures ViewOf(Next(r, Send(target)), s) == Step(s, ViewOf(r, s), TrunkOf(r, conns), Send(target))
  {
    PhysicalIsStandalone(r, conns);
    hide Shape, Aliasing, Attached, Standalone;
    match Sole(Physical(r)) {
      case Some(c) =>
        assert c in Physical(r);
        InTrunk(r, conns, c);
        AliasingView(r, conns, s, target, c);
      case None =>
    }
  }

  lemma InTrunk(r: Routes, conns: set<Id>, c: Id)
    requires Shape(r, conns) && c in Physical(r)
    ensures c in conns
  {
  }

  lemma CloseView(r: Routes, conns: set<Id>, s: Id, conn: Id, closed: Option<Socket>)
    requires s !in conns && conn in conns
    ensures ViewOf(Next(r, Disconnect(conn, closed)), s)
         == Step(s, ViewOf(r, s), TrunkOf(r, conns), Disconnect(conn, closed))
  {
    var t := TrunkOf(r, conns);
    assert TrunkStale(t, conn, closed) == Stale(r, conn, closed);
    assert s in Owned(r, conn) <==> conn in ViewOf(r, s).owners;
  }

  /** Refinement: a session's route depends on its own handshakes and on the connections alone. */
  lemma {:induction false} SessionsAreIndependent(es: seq<Event>, conns: set<Id>, s: Id)
    requires Separate(es, conns) && s !in conns
    ensures ViewOf(Run(es), s) == Follow(s, es, conns)
  {
    hide Next, Step, Shape, TrunkOf, ViewOf;
    if es == [] {
      NoView(s, conns);
    } else {
      var init := es[..|es| - 1];
      SeparatePrefix(es, conns);
      SessionsAreIndependent(init, conns, s);
      TrunkIsIndependent(init, conns);
      NextView(Run(init), conns, s, es[|es| - 1]);
    }
  }

  lemma NoView(s: Id, conns: set<Id>)
    ensures ViewOf(Run([]), s) == Follow(s, [], conns)
  {
  }

  /**
   A close leaves a session routed if and only if it is taken for stale or the closing connection
   never owned the session; a live connection the session has since moved to does not help.
   */
  lemma RouteSurvivesCloseIffNotOwned(es: seq<Event>, conns: set<Id>, s: Id, conn: Id, closed: Option<Socket>)
    requires Separate(es, conns) && conn in conns && s !in conns
    ensures s in Next(Run(es), Disconnect(conn, closed)).active
       <==> Follow(s, es, conns).route.Some?
            && (conn !in Follow(s, es, conns).owners || Stale(Run(es), conn, closed))
  {
    SessionsAreIndependent(es, conns, s);
  }

  // ---------------------------------------------------------------------
  // When a session's route is current
  // ---------------------------------------------------------------------

  /** The connection whose socket the session was given last, by event `at`; Detached with no route. */
  datatype Attachment = Detached | To(conn: Id, at: nat)

  ghost function AttachmentOf(s: Id, es: seq<Event>, conns: set<Id>): Attachment {
    if es == [] then Detached
    else
      var n := |es| - 1;
      var init := es[..n];
      AttachmentNext(AttachmentOf(s, init, conns), s, Follow(s, init, conns), TrunkRun(init, conns), es[n], n)
  }

  ghost function AttachmentNext(a: Attachment, s: Id, v: View, t: Trunk, e: Event, at: nat): Attachment {
    match e
    case Connect(_, _) => a
    case Alias(session, conn) => if session == s && conn in t.route then To(conn, at) else a
    case Send(target) => (
      match Sole(Standalone(t))
      case Some(c) => if target == s && v.route == None then To(c, at) else a
      case None => a
    )
    case Disconnect(conn, closed) =>
      if TrunkStale(t, conn, closed) || conn !in v.owners then a else Detached
  }

  /** Event `k` connects `conn` again or closes it for real. */
  ghost predicate Renews(es: seq<Event>, k: nat, conn: Id)
    requires k < |es|
  {
    match es[k]
    case Connect(c, _) => c == conn
    case Disconnect(c, closed) => c == conn && c in Open(es[..k]) && !Outdated(Open(es[..k]), c, closed)
    case _ => false
  }

  /** The connection was on its own socket at the attach and has neither reconnected nor closed since. */
  ghost predicate Undisturbed(es: seq<Event>, conns: set<Id>, conn: Id, at: nat)
    requires at < |es|
  {
    StandingOf(es[..at], conns, conn) == Own && forall k :: at < k < |es| ==> !Renews(es, k, conn)
  }

  /** What the attachment says about the session's route. */
  ghost predicate RouteFits(es: seq<Event>, conns: set<Id>, a: Attachment, v: View, open: map<Id, Socket>) {
    match a
    case Detached => v.route == None
    case To(conn, at) =>
      && at < |es| && conn in conns && v.route.Some? && v.route.value in Used(es)
      && (conn in open && open[conn] == v.route.value <==> Undisturbed(es, conns, conn, at))
  }

  lemma UndisturbedStep(es: seq<Event>, conns: set<Id>, conn: Id, at: nat)
    requires at < |es| - 1
    ensures Undisturbed(es, conns, conn, at)
       <==> Undisturbed(es[..|es| - 1], conns, conn, at) && !Renews(es, |es| - 1, conn)
  {
    hide Renews, StandingOf;
    var init := es[..|es| - 1];
    assert init[..at] == es[..at];
    forall k | 0 <= k < |init|
      ensures Renews(init, k, conn) == Renews(es, k, conn)
    {
      RenewsPrefix(es, k, conn);
    }
  }

  lemma RenewsPrefix(es: seq<Event>, k: nat, conn: Id)
    requires k < |es| - 1
    ensures Renews(es[..|es| - 1], k, conn) == Renews(es, k, conn)
  {
    assert es[..|es| - 1][..k] == es[..k];
  }

  /** An event that attaches the session: its route is the connection's, current iff that one stands on its own. */
  lemma AttachFits(es: seq<Event>, conns: set<Id>, conn: Id)
    requires es != [] && Separate(es, conns) && FreshSockets(es) && conn in conns
    requires OpenNext(Open(es[..|es| - 1]), es[|es| - 1]) == Open(es[..|es| - 1])
    requires Used(es[..|es| - 1]) <= Used(es)
    requires conn in TrunkRun(es[..|es| - 1], conns).route
    ensures var t := TrunkRun(es[..|es| - 1], conns);
            RouteFits(es, conns, To(conn, |es| - 1), View(Some(t.route[conn]), {}), Open(es))
  {
    var n := |es| - 1;
    SeparatePrefix(es, conns);
    StandingKept(es[..n], conns, conn);
    SocketsKept(es[..n], conns);
    hide TrunkRun, StandingOf, Standalone, OpenNext;
  }

  /** An event that leaves the session attached where it was. */
  lemma KeepFits(es: seq<Event>, conns: set<Id>, a: Attachment, v: View)
    requires es != [] && FreshSockets(es) && Used(es[..|es| - 1]) <= Used(es)
    requires RouteFits(es[..|es| - 1], conns, a, v, Open(es[..|es| - 1]))
    ensures RouteFits(es, conns, a, v, Open(es))
  {
    var n := |es| - 1;
    if a.To? {
      UndisturbedStep(es, conns, a.conn, a.at);
      hide Undisturbed;
      assert Renews(es, n, a.conn) <==>
        match es[n]
        case Connect(c, _) => c == a.conn
        case Disconnect(c, closed) => c == a.conn && c in Open(es[..n]) && !Outdated(Open(es[..n]), c, closed)
        case _ => false;
    }
  }

  lemma FitsStep(es: seq<Event>, conns: set<Id>, s: Id)
    requires es != [] && Separate(es, conns) && FreshSockets(es) && s !in conns
    requires var init := es[..|es| - 1];
             RouteFits(init, conns, AttachmentOf(s, init, conns), Follow(s, init, conns), Open(init))
    ensures RouteFits(es, conns, AttachmentOf(s, es, conns), Follow(s, es, conns), Open(es))
  {
    var n := |es| - 1;
    var init, e := es[..n], es[n];
    var t, v, a := TrunkRun(init, conns), Follow(s, init, conns), AttachmentOf(s, init, conns);
    SeparatePrefix(es, conns);
    KeepFits(es, conns, a, v);
    hide RouteFits, Undisturbed;
    match e {
      case Alias(session, conn) =>
        if session == s && conn in t.route {
          AttachFits(es, conns, conn);
          FitsAnyOwners(es, conns, conn, v);
        }
      case Send(target) =>
        var c := Sole(Standalone(t));
        if c.Some? && target == s && v.route == None {
          assert c.value in Standalone(t);
          StandaloneInConns(init, conns, c.value);
          AttachFits(es, conns, c.value);
          FitsAnyOwners(es, conns, c.value, v);
        }
      case Disconnect(conn, closed) =>
        if !TrunkStale(t, conn, closed) && conn in v.owners {
          DetachedFits(es, conns, v.owners - {conn});
        }
      case _ =>
    }
  }

  lemma StandaloneInConns(es: seq<Event>, conns: set<Id>, c: Id)
    requires Separate(es, conns) && c in TrunkRun(es, conns).route
    ensures c in conns
  {
    TrunkIsIndependent(es, conns);
  }

  lemma DetachedFits(es: seq<Event>, conns: set<Id>, owners: set<Id>)
    ensures RouteFits(es, conns, Detached, View(None, owners), Open(es))
  {
  }

  lemma FitsAnyOwners(es: seq<Event>, conns: set<Id>, conn: Id, v: View)
    requires es != [] && conn in TrunkRun(es[..|es| - 1], conns).route
    ensures var route := Some(TrunkRun(es[..|es| - 1], conns).route[conn]);
            RouteFits(es, conns, To(conn, |es| - 1), View(route, {}), Open(es))
            == RouteFits(es, conns, To(conn, |es| - 1), View(route, v.owners + {conn}), Open(es))
  {
  }

  lemma {:induction false} FitsThroughout(es: seq<Event>, conns: set<Id>, s: Id)
    requires Separate(es, conns) && FreshSockets(es) && s !in conns
    ensures RouteFits(es, conns, AttachmentOf(s, es, conns), Follow(s, es, conns), Open(es))
  {
    if es != [] {
      SeparatePrefix(es, conns);
      FitsThroughout(es[..|es| - 1], conns, s);
      FitsStep(es, conns, s);
    }
  }

  /**
   A routed session is on the current socket of the connection it was attached to last if and only if
   that connection was on its own socket then and has neither reconnected nor closed since.
   */
  lemma RouteIsCurrentIff(es: seq<Event>, conns: set<Id>, s: Id)
    requires Separate(es, conns) && FreshSockets(es) && s !in conns && s in Run(es).active
    ensures var a := AttachmentOf(s, es, conns);
            && a.To? && a.at < |es|
            && (a.conn in Open(es) && Run(es).active[s] == Open(es)[a.conn] <==> Undisturbed(es, conns, a.conn, a.at))
  {
    FitsThroughout(es, conns, s);
    SessionsAreIndependent(es, conns, s);
  }

  // ---------------------------------------------------------------------
  // What the table does not promise, at its smallest
  // ---------------------------------------------------------------------

  /** The run leads to this table, with these connections open. */
  ghost predicate Reaches(es: seq<Event>, active: map<Id, Socket>, aliases: Aliases, open: map<Id, Socket>) {
    Run(es) == Routes(active, aliases) && Open(es) == open
  }

  lemma ReachesStart()
    ensures Reaches([], map[], map[], map[])
  {
  }

  lemma ReachConnect(es: seq<Event>, active: map<Id, Socket>, aliases: Aliases, open: map<Id, Socket>,
                     conn: Id, socket: Socket, active': map<Id, Socket>, open': map<Id, Socket>)
    requires Reaches(es, active, aliases, open)
    requires active' == active[conn := socket] && open' == open[conn := socket]
    ensures Reaches(es + [Connect(conn, socket)], active', aliases, open')
  {
    RunSnoc(es, Connect(conn, socket));
  }

  lemma ReachAlias(es: seq<Event>, active: map<Id, Socket>, aliases: Aliases, open: map<Id, Socket>,
                   s: Id, conn: Id, active': map<Id, Socket>, aliases': Aliases)
    requires Reaches(es, active, aliases, open) && conn in active && conn !in aliases
    requires active' == active[s := active[conn]] && aliases' == aliases[conn := {s}]
    ensures Reaches(es + [Alias(s, conn)], active', aliases', open)
  {
    assert OwnedBy(aliases, conn) + {s} == {s};
    RunSnoc(es, Alias(s, conn));
  }

  /** A message to an unrouted id while `conn` is the only physical connection. */
  lemma ReachRecovered(es: seq<Event>, active: map<Id, Socket>, aliases: Aliases, open: map<Id, Socket>,
                       target: Id, conn: Id, active': map<Id, Socket>, aliases': Aliases)
    requires Reaches(es, active, aliases, open) && target !in active && conn !in aliases
    requires Physical(Routes(active, aliases)) == {conn} && conn in active
    requires active' == active[target := active[conn]] && aliases' == aliases[conn := {target}]
    ensures Reaches(es + [Send(target)], active', aliases', open)
  {
    hide Physical;
    assert OwnedBy(aliases, conn) + {target} == {target};
    RunSnoc(es, Send(target));
    assert Sole(Physical(Routes(active, aliases))) == Some(conn);
  }

  lemma ReachClosed(es: seq<Event>, active: map<Id, Socket>, aliases: Aliases, open: map<Id, Socket>,
                    conn: Id, socket: Socket, active': map<Id, Socket>, aliases': Aliases, open': map<Id, Socket>)
    requires Reaches(es, active, aliases, open)
    requires conn in open && open[conn] == socket && open' == open - {conn}
    requires if conn in active && active[conn] != socket then active' == active && aliases' == aliases
             else active' == active - ({conn} + OwnedBy(aliases, conn)) && aliases' == aliases - {conn}
    ensures Reaches(es + [Disconnect(conn, Some(socket))], active', aliases', open')
  {
    RunSnoc(es, Disconnect(conn, Some(socket)));
  }

  lemma RunSnoc(es: seq<Event>, e: Event)
    ensures Run(es + [e]) == Next(Run(es), e) && Open(es + [e]) == OpenNext(Open(es), e)
  {
    hide Next, OpenNext;
    assert (es + [e])[..|es + [e]| - 1] == es;
  }

  /** The session moved from `a` to `b`, and `a` closes. */
  lemma MovedSessionLosesItsRoute(a: Id, b: Id, s: Id)
    requires a != b && s != a && s != b
    ensures Reaches([Connect(a, 1), Connect(b, 2), Alias(s, a), Alias(s, b), Disconnect(a, Some(1))],
                    map[b := 2], map[b := {s}], map[b := 2])
  {
    hide Reaches;
    var both := map[a := 1, b := 2];
    ReachesStart();
    ReachConnect([], map[], map[], map[], a, 1, map[a := 1], map[a := 1]);
    var e1 := [] + [Connect(a, 1)];
    ReachConnect(e1, map[a := 1], map[], map[a := 1], b, 2, both, both);
    var e2 := e1 + [Connect(b, 2)];
    ReachAlias(e2, both, map[], both, s, a, both[s := 1], map[a := {s}]);
    var e3 := e2 + [Alias(s, a)];
    ReachAlias(e3, both[s := 1], map[a := {s}], both, s, b, both[s := 2], map[a := {s}, b := {s}]);
    var e4 := e3 + [Alias(s, b)];
    ReachClosed(e4, both[s := 2], map[a := {s}, b := {s}], both, a, 1, map[b := 2], map[b := {s}], map[b := 2]);
    assert e4 + [Disconnect(a, Some(1))]
        == [Connect(a, 1), Connect(b, 2), Alias(s, a), Alias(s, b), Disconnect(a, Some(1))];
  }

  /** Connection `a` has closed, a message to its id made `b` adopt it, `a` reconnects, and `b` closes. */
  function CutOffRun(a: Id, b: Id, s: Id): seq<Event> {
    [Connect(b, 1), Send(a), Connect(a, 2), Alias(s, a), Disconnect(b, Some(1))]
  }

  /** The open connection `a` has lost its route. */
  lemma RecoveredConnectionIsCutOff(a: Id, b: Id, s: Id)
    requires a != b && s != a && s != b
    ensures Reaches(CutOffRun(a, b, s), map[s := 2], map[a := {s}], map[a := 2])
  {
    hide Reaches, Physical;
    var both := map[b := 1, a := 2];
    ReachesStart();
    ReachConnect([], map[], map[], map[], b, 1, map[b := 1], map[b := 1]);
    var e1 := [] + [Connect(b, 1)];
    SolePhysical(map[b := 1], map[], b);
    ReachRecovered(e1, map[b := 1], map[], map[b := 1], a, b, map[b := 1, a := 1], map[b := {a}]);
    var e2 := e1 + [Send(a)];
    ReachConnect(e2, map[b := 1, a := 1], map[b := {a}], map[b := 1], a, 2, both, both);
    var e3 := e2 + [Connect(a, 2)];
    ReachAlias(e3, both, map[b := {a}], both, s, a, both[s := 2], map[b := {a}, a := {s}]);
    var e4 := e3 + [Alias(s, a)];
    ReachClosed(e4, both[s := 2], map[b := {a}, a := {s}], both, b, 1, map[s := 2], map[a := {s}], map[a := 2]);
    assert e4 + [Disconnect(b, Some(1))] == CutOffRun(a, b, s);
  }

  lemma SolePhysical(active: map<Id, Socket>, aliases: Aliases, conn: Id)
    requires conn in active && forall c :: c in aliases ==> conn !in aliases[c]
    requires forall id :: id in active && id != conn ==> id in Aliased(aliases)
    ensures Physical(Routes(active, aliases)) == {conn}
  {
  }

  /**
   The leak: a third connection adopts the id that was cut off, so the real close of `a` is taken for
   stale, and its session stays routed to the dead socket when everything is closed.
   */
  lemma MissedCloseLeaks(a: Id, b: Id, d: Id, s: Id)
    requires a != b && a != d && s != a && s != b && s != d
    ensures var es := CutOffRun(a, b, s) + [Connect(d, 3), Send(a), Disconnect(a, Some(2)), Disconnect(d, Some(3))];
            Reaches(es, map[s := 2], map[a := {s}], map[])
  {
    hide Reaches, Physical, CutOffRun;
    RecoveredConnectionIsCutOff(a, b, s);
    var e0 := CutOffRun(a, b, s);
    var r1, both := map[s := 2, d := 3], map[a := 2, d := 3];
    ReachConnect(e0, map[s := 2], map[a := {s}], map[a := 2], d, 3, r1, both);
    var e1 := e0 + [Connect(d, 3)];
    assert s in map[a := {s}][a];
    SolePhysical(r1, map[a := {s}], d);
    ReachRecovered(e1, r1, map[a := {s}], both, a, d, r1[a := 3], map[a := {s}, d := {a}]);
    var e2 := e1 + [Send(a)];
    ReachClosed(e2, r1[a := 3], map[a := {s}, d := {a}], both, a, 2, r1[a := 3], map[a := {s}, d := {a}], map[d := 3]);
    var e3 := e2 + [Disconnect(a, Some(2))];
    ReachClosed(e3, r1[a := 3], map[a := {s}, d := {a}], map[d := 3], d, 3, map[s := 2], map[a := {s}], map[]);
    assert e3 + [Disconnect(d, Some(3))]
        == e0 + [Connect(d, 3), Send(a), Disconnect(a, Some(2)), Disconnect(d, Some(3))];
  }

  /** A reconnect leaves the session on the dead socket. */
  lemma ReconnectLeavesStaleRoute(a: Id, s: Id)
    requires s != a
    ensures Reaches([Connect(a, 1), Alias(s, a), Connect(a, 2)], map[a := 2, s := 1], map[a := {s}], map[a := 2])
  {
    hide Reaches;
    ReachesStart();
    ReachConnect([], map[], map[], map[], a, 1, map[a := 1], map[a := 1]);
    var e1 := [] + [Connect(a, 1)];
    ReachAlias(e1, map[a := 1], map[], map[a := 1], s, a, map[a := 1, s := 1], map[a := {s}]);
    var e2 := e1 + [Alias(s, a)];
    ReachConnect(e2, map[a := 1, s := 1], map[a := {s}], map[a := 1], a, 2, map[a := 2, s := 1], map[a := 2]);
    assert e2 + [Connect(a, 2)] == [Connect(a, 1), Alias(s, a), Connect(a, 2)];
  }
}
