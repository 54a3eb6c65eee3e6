/**
 Everything a client is ever sent, step by step, and when it gets state updates: exactly one for every tick since the
 server read from it that it is ready, while it is connected.
 */
module Handshake {
  import opened Replication

  // ---------------------------------------------------------------- what a step sends

  /** The create messages for a walk. */
  function CreateEach(es: Entities, order: seq<Eid>): (ms: seq<ServerMsg>)
    requires forall id :: id in order ==> id in es
  {
    seq(|order|, i requires 0 <= i < |order| => EntityCreate(es[order[i]]))
  }

  /** To everyone who is connected. */
  function ToAll(w: World, c: ClientId, m: ServerMsg): (ms: seq<ServerMsg>) {
    if c in w.clients then [m] else []
  }

  /** To everyone but client d, who leaves, if d has logged in. */
  function Leaves(w: World, d: ClientId, c: ClientId): (ms: seq<ServerMsg>)
    requires d in w.links
  {
    if c != d && w.links[d].loggedIn then ToAll(w, c, ClientLeft(0)) else []
  }

  /** What client c is sent when the server reads the next message of client d. */
  function SentOnRead(w: World, d: ClientId, order: seq<Eid>, newId: Eid, c: ClientId): (ms: seq<ServerMsg>)
    requires d in w.links && w.links[d].inbox != [] && Walk(w.entities, order)
  {
    match w.links[d].inbox[0]
    case Login(true) =>
      if c != d then []
      else
        [Authenticated, Chat("Hello from server\n")] + CreateEach(w.entities, order)
        + [WorldSent(w.entities)] + w.recent
    case Login(false) => Leaves(w, d, c)
    case Join =>
      if !w.links[d].loggedIn then []
      else (if c == d then [ClientIdIs(newId)] else []) + ToAll(w, c, ClientJoined(newId))
    case Ready => []
    case ChatFrom(t) => ToAll(w, c, Chat(t))
    case Command => []
  }

  /** What client c is sent in one step, if the server takes it to be ready. */
  function Sent(w: World, s: Step, c: ClientId, ready: bool): (ms: seq<ServerMsg>)
    requires Enabled(w, s)
  {
    match s
    case Created(e) => ToAll(w, c, EntityCreate(e))
    case Destroyed(id) => ToAll(w, c, EntityDestroy(id))
    case ServerReads(d, order, newId) => SentOnRead(w, d, order, newId, c)
    case Drop(d) => Leaves(w, d, c)
    case SimulationTick => if ready then ToAll(w, c, GameStateUpdate(w.stateId + 1)) else []
    case _ => []
  }

  lemma {:induction false} CreatesAre(es: Entities, order: seq<Eid>)
    requires forall id :: id in order ==> id in es
    ensures Creates(es, order) == CreateEach(es, order)
  {
    if order != [] {
      CreatesAre(es, order[1..]);
      assert CreateEach(es, order) == [EntityCreate(es[order[0]])] + CreateEach(es, order[1..]);
    }
  }

  /** The client's write queue grows by exactly that. */
  lemma {:induction false} StepSends(w: World, s: Step, c: ClientId)
    requires Enabled(w, s) && c in w.links && (forall d :: d in w.clients ==> d in w.links)
    ensures c in Apply(w, s).links
    ensures Apply(w, s).links[c].outbox == w.links[c].outbox + Sent(w, s, c, w.links[c].ready)
  {
    hide Creates, CreateEach, Process, Walk, Disconnect;
    match s {
      case ServerReads(d, order, newId) => ReadSends(w, d, order, newId, c);
      case Drop(d) => DisconnectSends(w, d, c);
      case _ =>
    }
  }

  lemma {:induction false} DisconnectSends(w: World, d: ClientId, c: ClientId)
    requires d in w.clients && d in w.links && c in w.links
    ensures c in Disconnect(w, d).links
    ensures Disconnect(w, d).links[c].outbox == w.links[c].outbox + Leaves(w, d, c)
  {
  }

  lemma {:induction false} ReadSends(w: World, d: ClientId, order: seq<Eid>, newId: Eid, c: ClientId)
    requires Enabled(w, ServerReads(d, order, newId)) && c in w.links
    ensures c in Process(w, d, order, newId).links
    ensures Process(w, d, order, newId).links[c].outbox == w.links[c].outbox + SentOnRead(w, d, order, newId, c)
  {
    hide Creates, CreateEach, Disconnect, Walk;
    assert forall id :: id in order ==> id in w.entities by { WalkKeys(w.entities, order); }
    CreatesAre(w.entities, order);
    var l := w.links[d].(inbox := w.links[d].inbox[1..]);
    var popped := w.(links := w.links[d := l]);
    match w.links[d].inbox[0] {
      case Login(true) =>
        assert [Authenticated] + SendWorld(w, order)
            == [Authenticated, Chat("Hello from server\n")] + CreateEach(w.entities, order) + [WorldSent(w.entities)]
               + w.recent;
      case Login(false) =>
        DisconnectSends(popped, d, c);
        assert Leaves(popped, d, c) == Leaves(w, d, c);
      case _ =>
    }
  }

  lemma {:induction false} WalkKeys(es: Entities, order: seq<Eid>)
    requires Walk(es, order)
    ensures forall id :: id in order ==> id in es
  {
  }

  // ---------------------------------------------------------------- what the server and a client do with it

  /** The server's entities change with the simulation's events alone. */
  lemma {:induction false} StepEntities(w: World, s: Step)
    requires Enabled(w, s)
    ensures Apply(w, s).entities == if s.Created? then w.entities[s.e.id := s.e]
                                    else if s.Destroyed? then w.entities - {s.id} else w.entities
  {
    hide SendWorld, Creates, Walk;
  }

  /**
   A client handles what it is sent in order. It joins when it is authenticated, says that it is ready when the world
   has been sent, and otherwise sends what its user does; its entities change with the messages that name one.
   */
  lemma {:induction false} StepAnswers(w: World, s: Step, c: ClientId)
    requires Enabled(w, s) && c in w.links
    ensures c in Apply(w, s).links
    ensures var l, r := w.links[c], Apply(w, s).links[c];
            if s == ClientReads(c) then
              var m := l.outbox[l.handled];
              && r.handled == l.handled + 1
              && r.inbox == (if m == Authenticated then l.inbox + [Join]
                             else if m.WorldSent? then l.inbox + [Ready] else l.inbox)
              && r.view == (if m.EntityCreate? then l.view[m.e.id := m.e]
                            else if m.EntityDestroy? || m.ClientLeft? then l.view - {m.id} else l.view)
            else
              && r.handled == l.handled && r.view == l.view
              && r.inbox == (if s.ServerReads? && s.c == c then l.inbox[1..]
                             else if s.UserSends? && s.c == c then l.inbox + [s.m] else l.inbox)
  {
    hide SendWorld, Creates, Walk, Process;
    if s.ServerReads? {
      ReadPops(w, s.c, s.order, s.newId, c);
    }
  }

  lemma {:induction false} ReadPops(w: World, d: ClientId, order: seq<Eid>, newId: Eid, c: ClientId)
    requires Enabled(w, ServerReads(d, order, newId)) && c in w.links
    ensures var v, l := Process(w, d, order, newId), w.links[c];
            c in v.links && v.links[c].view == l.view && v.links[c].handled == l.handled
            && v.links[c].inbox == if c == d then l.inbox[1..] else l.inbox
  {
    hide SendWorld, Creates, Walk, Remember, Broadcast;
    var l := w.links[d].(inbox := w.links[d].inbox[1..]);
    var popped := w.(links := w.links[d := l]);
    match w.links[d].inbox[0] {
      case Login(false) => BroadcastKeeps(popped.(clients := popped.clients - {d}), ClientLeft(0), c);
      case Join =>
        BroadcastKeeps(popped.(links := popped.links[d := Queue(l, [ClientIdIs(newId)])]), ClientJoined(newId), c);
      case ChatFrom(t) => BroadcastKeeps(popped.(recent := Remember(w.recent, Chat(t))), Chat(t), c);
      case _ =>
    }
  }

  // ---------------------------------------------------------------- who is ready, logged in and connected

  /** The server reads a message of this kind from client c. */
  predicate Reads(w: World, s: Step, c: ClientId, m: ClientMsg) {
    s.ServerReads? && s.c == c && c in w.links && w.links[c].inbox != [] && w.links[c].inbox[0] == m
  }

  /** Some step of the run reads a `Ready` from client c. */
  ghost predicate ReadReady(w: World, steps: seq<Step>, c: ClientId)
    decreases |steps|
  {
    steps != [] && Enabled(w, steps[0])
    && (Reads(w, steps[0], c, Ready) || ReadReady(Apply(w, steps[0]), steps[1..], c))
  }

  lemma {:induction false} StepReady(w: World, s: Step, c: ClientId)
    requires Enabled(w, s) && c in w.links
    ensures c in Apply(w, s).links
    ensures Apply(w, s).links[c].ready <==> w.links[c].ready || Reads(w, s, c, Ready)
    ensures Apply(w, s).links[c].loggedIn <==> w.links[c].loggedIn || Reads(w, s, c, Login(true))
    ensures c in Apply(w, s).clients <==> c in w.clients && s != Drop(c) && !Reads(w, s, c, Login(false))
  {
    hide SendWorld, Creates, Walk, Process, ClientHandles;
    match s {
      case ServerReads(d, order, newId) => ReadChanges(w, d, order, newId, c);
      case ClientReads(d) => HandlesKeeps(w.links[d]);
      case _ =>
    }
  }

  lemma {:induction false} HandlesKeeps(l: Link)
    requires l.handled < |l.outbox|
    ensures ClientHandles(l).ready == l.ready && ClientHandles(l).loggedIn == l.loggedIn
  {
  }

  lemma {:induction false} ReadChanges(w: World, d: ClientId, order: seq<Eid>, newId: Eid, c: ClientId)
    requires Enabled(w, ServerReads(d, order, newId)) && c in w.links
    ensures var v, s := Process(w, d, order, newId), ServerReads(d, order, newId);
            && c in v.links
            && (v.links[c].ready <==> w.links[c].ready || Reads(w, s, c, Ready))
            && (v.links[c].loggedIn <==> w.links[c].loggedIn || Reads(w, s, c, Login(true)))
            && (c in v.clients <==> c in w.clients && !Reads(w, s, c, Login(false)))
  {
    hide SendWorld, Creates, Walk, Remember, Broadcast;
    var l := w.links[d].(inbox := w.links[d].inbox[1..]);
    var popped := w.(links := w.links[d := l]);
    match w.links[d].inbox[0] {
      case Login(false) => BroadcastKeeps(popped.(clients := popped.clients - {d}), ClientLeft(0), c);
      case Join =>
        BroadcastKeeps(popped.(links := popped.links[d := Queue(l, [ClientIdIs(newId)])]), ClientJoined(newId), c);
      case ChatFrom(t) => BroadcastKeeps(popped.(recent := Remember(w.recent, Chat(t))), Chat(t), c);
      case _ =>
    }
  }

  lemma {:induction false} BroadcastKeeps(w: World, m: ServerMsg, c: ClientId)
    requires c in w.links
    ensures var v := Broadcast(w, m);
            c in v.links && v.clients == w.clients && v.links[c] == w.links[c].(outbox := v.links[c].outbox)
  {
  }

  /** A client that is accepted has none of this yet, is connected, and is the only one added. */
  lemma {:induction false} StepAccepts(w: World, s: Step, c: ClientId)
    requires Enabled(w, s) && c !in w.links && (forall d :: d in w.clients ==> d in w.links)
    ensures c in Apply(w, s).links <==> s == Accept(c)
    ensures s == Accept(c) ==> Apply(w, s).links[c] == Link([], 0, map[], [], false, false) && c in Apply(w, s).clients
  {
    hide SendWorld, Creates;
  }

  lemma {:induction false} ReadyGrows(w: World, steps: seq<Step>, v: World, c: ClientId)
    requires Inv(w) && Run(w, steps, v) && c in w.links
    ensures c in v.links && (v.links[c].ready <==> w.links[c].ready || ReadReady(w, steps, c))
    decreases |steps|
  {
    hide Inv, Apply, Enabled, Reads;
    if steps != [] {
      StepReady(w, steps[0], c);
      StepInv(w, steps[0]);
      ReadyGrows(Apply(w, steps[0]), steps[1..], v, c);
    }
  }

  lemma {:induction false} ReadyLater(w: World, steps: seq<Step>, v: World, c: ClientId)
    requires Inv(w) && Run(w, steps, v) && c !in w.links
    ensures c in v.links ==> (v.links[c].ready <==> ReadReady(w, steps, c))
    decreases |steps|
  {
    hide Inv, Apply, Enabled;
    if steps != [] {
      var next := Apply(w, steps[0]);
      StepInv(w, steps[0]);
      ClientsLinked(w);
      StepAccepts(w, steps[0], c);
      if c in next.links {
        ReadyGrows(next, steps[1..], v, c);
      } else {
        ReadyLater(next, steps[1..], v, c);
      }
    }
  }

  lemma {:induction false} ClientsLinked(w: World)
    requires Inv(w)
    ensures forall d :: d in w.clients ==> d in w.links
  {
    hide LinkOk, InStep;
  }

  /** In every run the server takes a client to be ready if and only if it has read from it that it is. */
  lemma {:induction false} ReadyIff(steps: seq<Step>, w: World, c: ClientId)
    requires Run(Init(), steps, w) && c in w.links
    ensures w.links[c].ready <==> ReadReady(Init(), steps, c)
  {
    InitInv();
    ReadyLater(Init(), steps, w, c);
  }

  // ---------------------------------------------------------------- everything a client is sent

  /** What client c is sent along the run, from not ready or ready on. */
  function AllSent(w: World, steps: seq<Step>, c: ClientId, ready: bool): (ms: seq<ServerMsg>)
    decreases |steps|
  {
    if steps == [] || !Enabled(w, steps[0]) then []
    else
      (if c in w.links then Sent(w, steps[0], c, ready) else [])
      + AllSent(Apply(w, steps[0]), steps[1..], c, ready || Reads(w, steps[0], c, Ready))
  }

  lemma {:induction false} OutboxGrows(w: World, steps: seq<Step>, v: World, c: ClientId)
    requires Inv(w) && Run(w, steps, v) && c in w.links
    ensures c in v.links && v.links[c].outbox == w.links[c].outbox + AllSent(w, steps, c, w.links[c].ready)
    decreases |steps|
  {
    hide Inv, Apply, Enabled, Sent, Reads;
    if steps != [] {
      var next := Apply(w, steps[0]);
      ClientsLinked(w);
      StepSends(w, steps[0], c);
      StepReady(w, steps[0], c);
      StepInv(w, steps[0]);
      OutboxGrows(next, steps[1..], v, c);
      var ready := w.links[c].ready;
      var rest := AllSent(next, steps[1..], c, next.links[c].ready);
      assert AllSent(w, steps, c, ready) == Sent(w, steps[0], c, ready) + rest;
    }
  }

  lemma {:induction false} OutboxBegins(w: World, steps: seq<Step>, v: World, c: ClientId)
    requires Inv(w) && Run(w, steps, v) && c !in w.links
    ensures c in v.links ==> v.links[c].outbox == AllSent(w, steps, c, false)
    decreases |steps|
  {
    hide Inv, Apply, Enabled, Sent;
    if steps != [] {
      var next := Apply(w, steps[0]);
      StepInv(w, steps[0]);
      ClientsLinked(w);
      StepAccepts(w, steps[0], c);
      assert !Reads(w, steps[0], c, Ready);
      if c in next.links {
        OutboxGrows(next, steps[1..], v, c);
      } else {
        OutboxBegins(next, steps[1..], v, c);
      }
      assert AllSent(w, steps, c, false) == [] + AllSent(next, steps[1..], c, false);
    }
  }

  /** In every run a client's write queue has had exactly what the steps send it, in their order. */
  lemma {:induction false} OutboxIs(steps: seq<Step>, w: World, c: ClientId)
    requires Run(Init(), steps, w) && c in w.links
    ensures w.links[c].outbox == AllSent(Init(), steps, c, false)
  {
    InitInv();
    OutboxBegins(Init(), steps, w, c);
  }

  // ---------------------------------------------------------------- state updates

  /** The ids of the updates among the messages. */
  function UpdatesIn(ms: seq<ServerMsg>): (ids: seq<nat>) {
    if ms == [] then [] else UpdateIn(ms[0]) + UpdatesIn(ms[1..])
  }

  function UpdateIn(m: ServerMsg): (ids: seq<nat>) {
    if m.GameStateUpdate? then [m.stateId] else []
  }

  lemma {:induction false} UpdatesConcat(a: seq<ServerMsg>, b: seq<ServerMsg>)
    ensures UpdatesIn(a + b) == UpdatesIn(a) + UpdatesIn(b)
  {
    hide UpdateIn;
    if a == [] {
      assert a + b == b;
    } else {
      assert (a + b)[0] == a[0] && (a + b)[1..] == a[1..] + b;
      UpdatesConcat(a[1..], b);
      assert UpdateIn(a[0]) + (UpdatesIn(a[1..]) + UpdatesIn(b)) == UpdateIn(a[0]) + UpdatesIn(a[1..]) + UpdatesIn(b);
    }
  }

  lemma {:induction false} NoUpdates(ms: seq<ServerMsg>)
    requires forall i :: 0 <= i < |ms| ==> !ms[i].GameStateUpdate?
    ensures UpdatesIn(ms) == []
  {
    if ms != [] {
      NoUpdates(ms[1..]);
    }
  }

  /** The numbers of the ticks, counted from n + 1, at which client c is connected and has been read to be ready. */
  function TicksFor(w: World, steps: seq<Step>, c: ClientId, ready: bool, n: nat): (ids: seq<nat>)
    decreases |steps|
  {
    if steps == [] || !Enabled(w, steps[0]) then []
    else
      (if steps[0].SimulationTick? && ready && c in w.clients then [n + 1] else [])
      + TicksFor(Apply(w, steps[0]), steps[1..], c, ready || Reads(w, steps[0], c, Ready),
                 if steps[0].SimulationTick? then n + 1 else n)
  }

  lemma {:induction false} SentUpdates(w: World, s: Step, c: ClientId, ready: bool)
    requires Inv(w) && Enabled(w, s)
    ensures UpdatesIn(Sent(w, s, c, ready))
            == if s.SimulationTick? && ready && c in w.clients then [w.stateId + 1] else []
    ensures Apply(w, s).stateId == if s.SimulationTick? then w.stateId + 1 else w.stateId
  {
    hide LinkOk, InStep, Walk, Creates;
    if s.SimulationTick? {
      assert [GameStateUpdate(w.stateId + 1)][1..] == [];
    } else {
      var ms := Sent(w, s, c, ready);
      forall i | 0 <= i < |ms| ensures !ms[i].GameStateUpdate? {
      }
      NoUpdates(ms);
    }
  }

  lemma {:induction false} UpdatesAre(w: World, steps: seq<Step>, c: ClientId, ready: bool)
    requires Inv(w) && (exists v :: Run(w, steps, v)) && (c !in w.links ==> !ready)
    ensures UpdatesIn(AllSent(w, steps, c, ready)) == TicksFor(w, steps, c, ready, w.stateId)
    decreases |steps|
  {
    hide Inv, Apply, Enabled, Sent;
    if steps != [] {
      var v :| Run(w, steps, v);
      var s, next := steps[0], Apply(w, steps[0]);
      var rest := AllSent(next, steps[1..], c, ready || Reads(w, s, c, Ready));
      StepInv(w, s);
      ClientsLinked(w);
      SentUpdates(w, s, c, ready);
      assert Run(next, steps[1..], v);
      if c in w.links {
        StepReady(w, s, c);
        UpdatesConcat(Sent(w, s, c, ready), rest);
      } else {
        assert !Reads(w, s, c, Ready) && [] + rest == rest;
      }
      UpdatesAre(next, steps[1..], c, ready || Reads(w, s, c, Ready));
    }
  }

  /**
   In every run a client's write queue has had one state update, with the number of the tick as its id, for every tick
   taken while it was connected after the server had read from it that it is ready, and no other update.
   */
  lemma {:induction false} UpdatesExact(steps: seq<Step>, w: World, c: ClientId)
    requires Run(Init(), steps, w) && c in w.links
    ensures UpdatesIn(w.links[c].outbox) == TicksFor(Init(), steps, c, false, 0)
  {
    InitInv();
    OutboxIs(steps, w, c);
    UpdatesAre(Init(), steps, c, false);
  }

  /** A chat message reaches every client that is connected, once, and is among the recent ones. */
  lemma {:induction false} ChatReaches(w: World, d: ClientId, order: seq<Eid>, newId: Eid, text: string, c: ClientId)
    requires Enabled(w, ServerReads(d, order, newId)) && w.links[d].inbox[0] == ChatFrom(text) && c in w.links
    ensures var v := Apply(w, ServerReads(d, order, newId));
            && c in v.links
            && v.links[c].outbox == w.links[c].outbox + (if c in w.clients then [Chat(text)] else [])
            && v.recent != [] && v.recent[|v.recent| - 1] == Chat(text)
            && (|w.recent| < 100 ==> v.recent == w.recent + [Chat(text)])
            && (|w.recent| == 100 ==> v.recent == w.recent[1..] + [Chat(text)])
  {
    hide Walk;
  }

  // ---------------------------------------------------------------- a run to the first update

  /** One client, and no entities. */
  function Alone(l: Link, ticks: nat): (w: World) {
    World(map[], {0}, map[0 := l], [], ticks)
  }

  const WELCOME: seq<ServerMsg> := [Authenticated, Chat("Hello from server\n"), WorldSent(map[])]

  /** The step leads from one of these worlds to the other. */
  predicate Leads(l: Link, n: nat, s: Step, l': Link, n': nat) {
    Enabled(Alone(l, n), s) && Apply(Alone(l, n), s) == Alone(l', n')
  }

  lemma {:induction false} LoginLeads()
    ensures Enabled(Init(), Accept(0)) && Apply(Init(), Accept(0)) == Alone(Link([], 0, map[], [], false, false), 0)
    ensures Leads(Link([], 0, map[], [], false, false), 0, UserSends(0, Login(true)),
                  Link([], 0, map[], [Login(true)], false, false), 0)
    ensures Leads(Link([], 0, map[], [Login(true)], false, false), 0, ServerReads(0, [], 0),
                  Link(WELCOME, 0, map[], [], true, false), 0)
  {
    assert {} + {0} == {0};
    assert [] + [Login(true)] == [Login(true)];
    var l := Link([], 0, map[], [Login(true)], false, false);
    var none: Entities := map[];
    assert [Login(true)][1..] == [] && [] + ([Authenticated] + SendWorld(Alone(l, 0), [])) == WELCOME;
    assert map[0 := l][0 := l.(inbox := [])][0 := Link(WELCOME, 0, map[], [], true, false)]
        == map[0 := Link(WELCOME, 0, map[], [], true, false)];
  }

  lemma {:induction false} AnswersLead()
    ensures Leads(Link(WELCOME, 0, map[], [], true, false), 0, ClientReads(0),
                  Link(WELCOME, 1, map[], [Join], true, false), 0)
    ensures Leads(Link(WELCOME, 1, map[], [Join], true, false), 0, ClientReads(0),
                  Link(WELCOME, 2, map[], [Join], true, false), 0)
    ensures Leads(Link(WELCOME, 2, map[], [Join], true, false), 0, ClientReads(0),
                  Link(WELCOME, 3, map[], [Join, Ready], true, false), 0)
  {
    assert [] + [Join] == [Join] && [Join] + [] == [Join] && [Join] + [Ready] == [Join, Ready];
  }

  lemma {:induction false} ReadyLeads(id: Eid)
    ensures var told := WELCOME + [ClientIdIs(id)] + [ClientJoined(id)];
            && Leads(Link(WELCOME, 3, map[], [Join, Ready], true, false), 0, ServerReads(0, [], id),
                     Link(told, 3, map[], [Ready], true, false), 0)
            && Leads(Link(told, 3, map[], [Ready], true, false), 0, ServerReads(0, [], id),
                     Link(told, 3, map[], [], true, true), 0)
            && Leads(Link(told, 3, map[], [], true, true), 0, SimulationTick,
                     Link(told + [GameStateUpdate(1)], 3, map[], [], true, true), 1)
  {
    assert [Join, Ready][1..] == [Ready] && [Ready][1..] == [];
    var l := Link(WELCOME, 3, map[], [Ready], true, false);
    var told := WELCOME + [ClientIdIs(id)] + [ClientJoined(id)];
    var m := l.(outbox := WELCOME + [ClientIdIs(id)]);
    assert map[0 := Link(WELCOME, 3, map[], [Join, Ready], true, false)][0 := l][0 := m] == map[0 := m];
  }

  lemma {:induction false} RunStep(w: World, s: Step, steps: seq<Step>, v: World)
    requires Enabled(w, s) && Run(Apply(w, s), steps, v)
    ensures Run(w, [s] + steps, v)
  {
    assert ([s] + steps)[1..] == steps;
  }

  /** From nothing to the first update: a client connects, logs in, answers what it is sent, and a tick is taken. */
  lemma {:induction false} FirstUpdate(id: Eid) returns (steps: seq<Step>, w: World)
    ensures Run(Init(), steps, w) && 0 in w.clients && 0 in w.links && w.links[0].ready
    ensures w.links[0].outbox == WELCOME + [ClientIdIs(id)] + [ClientJoined(id)] + [GameStateUpdate(1)]
  {
    hide Run, Enabled, Apply;
    var told := WELCOME + [ClientIdIs(id)] + [ClientJoined(id)];
    w := Alone(Link(told + [GameStateUpdate(1)], 3, map[], [], true, true), 1);
    LoginLeads();
    AnswersLead();
    ReadyLeads(id);
    assert Run(w, [], w) by { RunEmpty(w); }
    steps := [];
    RunStep(Alone(Link(told, 3, map[], [], true, true), 0), SimulationTick, steps, w);
    steps := [SimulationTick] + steps;
    RunStep(Alone(Link(told, 3, map[], [Ready], true, false), 0), ServerReads(0, [], id), steps, w);
    steps := [ServerReads(0, [], id)] + steps;
    RunStep(Alone(Link(WELCOME, 3, map[], [Join, Ready], true, false), 0), ServerReads(0, [], id), steps, w);
    steps := [ServerReads(0, [], id)] + steps;
    RunStep(Alone(Link(WELCOME, 2, map[], [Join], true, false), 0), ClientReads(0), steps, w);
    steps := [ClientReads(0)] + steps;
    RunStep(Alone(Link(WELCOME, 1, map[], [Join], true, false), 0), ClientReads(0), steps, w);
    steps := [ClientReads(0)] + steps;
    RunStep(Alone(Link(WELCOME, 0, map[], [], true, false), 0), ClientReads(0), steps, w);
    steps := [ClientReads(0)] + steps;
    RunStep(Alone(Link([], 0, map[], [Login(true)], false, false), 0), ServerReads(0, [], 0), steps, w);
    steps := [ServerReads(0, [], 0)] + steps;
    RunStep(Alone(Link([], 0, map[], [], false, false), 0), UserSends(0, Login(true)), steps, w);
    steps := [UserSends(0, Login(true))] + steps;
    RunStep(Init(), Accept(0), steps, w);
    steps := [Accept(0)] + steps;
  }

  lemma {:induction false} RunEmpty(w: World)
    ensures Run(w, [], w)
  {
  }
}
