/**
 World replication and the login handshake: the server's entity table, the messages it queues
 for each client, the clients' views built from them, and the answers that make a client ready
 for state updates. Each handler is one atomic step; both directions of a connection are FIFO.
 */
module Replication {

  type Eid = nat
  type ClientId = nat

  datatype Entity = Entity(id: Eid, components: string)

  type Entities = map<Eid, Entity>

  /** Messages from the server. `held` is history: the entities the server had at that moment. */
  datatype ServerMsg =
    | Chat(text: string)
    | Authenticated
    | EntityCreate(e: Entity)
    | EntityDestroy(id: Eid)
    | WorldSent(held: Entities)
    | ClientIdIs(id: Eid)
    | ClientJoined(id: Eid)
    | ClientLeft(id: Eid)
    | GameStateUpdate(stateId: nat)

  /** Messages from a client. */
  datatype ClientMsg =
    | Login(accepted: bool)
    | Join
    | Ready
    | ChatFrom(text: string)
    | Command

  /** One client as the server and the network see it. */
  datatype Link = Link(
    /** Everything ever put in the client's write queue, in order. */
    outbox: seq<ServerMsg>,
    /** How many of these the client has handled. */
    handled: nat,
    /** The client's entities. */
    view: Entities,
    /** What the client has sent and the server has not handled yet. */
    inbox: seq<ClientMsg>,
    /** `user` is assigned. */
    loggedIn: bool,
    /** `ready_to_recv_states` */
    ready: bool
  )

  datatype World = World(entities: Entities, clients: set<ClientId>, links: map<ClientId, Link>,
                         recent: seq<ServerMsg>, stateId: nat)

  const GREETING: ServerMsg := Chat("Hello from server\n")
  const MAX_RECENT: nat := 100

  function Init(): (w: World) {
    World(map[], {}, map[], [], 0)
  }

  // ---------------------------------------------------------------- the server's handlers

  /** `QueueWrite` on one client. */
  function Queue(l: Link, ms: seq<ServerMsg>): (r: Link) {
    l.(outbox := l.outbox + ms)
  }

  /** `Server::Deliver` to every connected client. */
  function Broadcast(w: World, m: ServerMsg): (r: World) {
    w.(links := map c | c in w.links :: if c in w.clients then Queue(w.links[c], [m]) else w.links[c])
  }

  /** The recent-message list after a message is saved to it. */
  function Remember(recent: seq<ServerMsg>, m: ServerMsg): (r: seq<ServerMsg>)
    ensures |r| <= MAX_RECENT || |r| == |recent|
  {
    var all := recent + [m];
    if |all| > MAX_RECENT then all[|all| - MAX_RECENT..] else all
  }

  /** `Server::On(EntityCreated)` */
  function OnCreated(w: World, e: Entity): (r: World) {
    Broadcast(w.(entities := w.entities[e.id := e]), EntityCreate(e))
  }

  /** `Server::On(EntityDestroyed)` */
  function OnDestroyed(w: World, id: Eid): (r: World) {
    Broadcast(w.(entities := w.entities - {id}), EntityDestroy(id))
  }

  /** The create messages of `SendWorld`, in the order the entity table happens to be walked. */
  function Creates(es: Entities, order: seq<Eid>): (ms: seq<ServerMsg>)
    requires forall id :: id in order ==> id in es
    ensures |ms| == |order|
  {
    if order == [] then [] else [EntityCreate(es[order[0]])] + Creates(es, order[1..])
  }

  /** A walk over all keys of the table, each once. */
  predicate Walk(es: Entities, order: seq<Eid>) {
    && (forall id :: id in order ==> id in es) && (forall id :: id in es ==> id in order)
    && forall i, j :: 0 <= i < j < |order| ==> order[i] != order[j]
  }

  /** `Server::SendWorld` */
  function SendWorld(w: World, order: seq<Eid>): (ms: seq<ServerMsg>)
    requires Walk(w.entities, order)
  {
    [GREETING] + Creates(w.entities, order) + [WorldSent(w.entities)] + w.recent
  }

  /** `Server::OnDisconnect`: the leaving client's entity id has been reset to 0 by then. */
  function Disconnect(w: World, c: ClientId): (r: World)
    requires c in w.clients && c in w.links
  {
    var gone := w.(clients := w.clients - {c});
    if w.links[c].loggedIn then Broadcast(gone, ClientLeft(0)) else gone
  }

  /** `ClientConnection::process_message` on the next message of client c. */
  function Process(w: World, c: ClientId, order: seq<Eid>, newId: Eid): (r: World)
    requires c in w.clients && c in w.links && w.links[c].inbox != [] && Walk(w.entities, order)
  {
    var m := w.links[c].inbox[0];
    var l := w.links[c].(inbox := w.links[c].inbox[1..]);
    var popped := w.(links := w.links[c := l]);
    match m
    case Login(true) =>
      popped.(links := popped.links[c := Queue(l.(loggedIn := true), [Authenticated] + SendWorld(w, order))])
    case Login(false) => Disconnect(popped, c)
    case Join =>
      if l.loggedIn
      then Broadcast(popped.(links := popped.links[c := Queue(l, [ClientIdIs(newId)])]), ClientJoined(newId))
      else popped
    case Ready => popped.(links := popped.links[c := l.(ready := true)])
    case ChatFrom(t) => Broadcast(popped.(recent := Remember(w.recent, Chat(t))), Chat(t))
    case Command => popped
  }

  /** The tick of the simulation thread: an update to each client that is ready, and to no other. */
  function Tick(w: World): (r: World) {
    var id := w.stateId + 1;
    w.(stateId := id,
       links := map c | c in w.links ::
         if c in w.clients && w.links[c].ready then Queue(w.links[c], [GameStateUpdate(id)]) else w.links[c])
  }

  function Connect(w: World, c: ClientId): (r: World) {
    w.(clients := w.clients + {c}, links := w.links[c := Link([], 0, map[], [], false, false)])
  }

  // ---------------------------------------------------------------- the client

  /** A client's entities after one message. */
  function See(view: Entities, m: ServerMsg): (r: Entities) {
    match m
    case EntityCreate(e) => view[e.id := e]
    case EntityDestroy(id) => view - {id}
    case ClientLeft(id) => view - {id}
    case _ => view
  }

  function SeeAll(view: Entities, ms: seq<ServerMsg>): (r: Entities) {
    if ms == [] then view else See(SeeAll(view, ms[..|ms| - 1]), ms[|ms| - 1])
  }

  /** What the shipped client answers by itself. */
  function Answer(m: ServerMsg): (a: seq<ClientMsg>) {
    match m
    case Authenticated => [Join]
    case WorldSent(_) => [Ready]
    case _ => []
  }

  /** A client handles the next message queued for it. */
  function ClientHandles(l: Link): (r: Link)
    requires l.handled < |l.outbox|
  {
    var m := l.outbox[l.handled];
    l.(handled := l.handled + 1, view := See(l.view, m), inbox := l.inbox + Answer(m))
  }

  // ---------------------------------------------------------------- steps

  datatype Step =
    | Accept(c: ClientId)
    | Created(e: Entity)
    | Destroyed(id: Eid)
    | ServerReads(c: ClientId, order: seq<Eid>, newId: Eid)
    | Drop(c: ClientId)
    | ClientReads(c: ClientId)
    | UserSends(c: ClientId, m: ClientMsg)
    | SimulationTick

  predicate Enabled(w: World, s: Step) {
    match s
    case Accept(c) => c !in w.links
    case Created(e) => e.id != 0
    case Destroyed(id) => id != 0
    case ServerReads(c, order, _) => c in w.clients && c in w.links && w.links[c].inbox != [] && Walk(w.entities, order)
    case Drop(c) => c in w.clients && c in w.links
    case ClientReads(c) => c in w.links && w.links[c].handled < |w.links[c].outbox|
    case UserSends(c, m) => c in w.links && m != Ready && m != Join
    case SimulationTick => true
  }

  function Apply(w: World, s: Step): (r: World)
    requires Enabled(w, s)
  {
    match s
    case Accept(c) => Connect(w, c)
    case Created(e) => OnCreated(w, e)
    case Destroyed(id) => OnDestroyed(w, id)
    case ServerReads(c, order, newId) => Process(w, c, order, newId)
    case Drop(c) => Disconnect(w, c)
    case ClientReads(c) => w.(links := w.links[c := ClientHandles(w.links[c])])
    case UserSends(c, m) => w.(links := w.links[c := w.links[c].(inbox := w.links[c].inbox + [m])])
    case SimulationTick => Tick(w)
  }

  ghost predicate Run(w: World, steps: seq<Step>, v: World)
    decreases |steps|
  {
    if steps == [] then w == v
    else Enabled(w, steps[0]) && Run(Apply(w, steps[0]), steps[1..], v)
  }

  // ---------------------------------------------------------------- the invariant

  predicate Submap(a: Entities, b: Entities) {
    forall id :: id in a ==> id in b && a[id] == b[id]
  }

  /** Some message of the prefix of length n says that the world was sent. */
  predicate WorldSentBefore(ms: seq<ServerMsg>, n: nat)
    requires n <= |ms|
  {
    exists j :: 0 <= j < n && ms[j].WorldSent?
  }

  predicate Announced(ms: seq<ServerMsg>, n: nat, e: Entity)
    requires n <= |ms|
  {
    exists i :: 0 <= i < n && ms[i] == EntityCreate(e)
  }

  /** Updates only after the world, and the world only after a create message for all it held. */
  predicate Ordered(ms: seq<ServerMsg>) {
    && (forall i :: 0 <= i < |ms| && ms[i].GameStateUpdate? ==> WorldSentBefore(ms, i))
    && (forall j :: 0 <= j < |ms| && ms[j].WorldSent? ==>
         forall id :: id in ms[j].held ==> Announced(ms, j, ms[j].held[id]))
  }

  /** All messages ever queued for the client, as its view will be once it has handled them. */
  function FinalView(l: Link): (v: Entities) {
    SeeAll(map[], l.outbox)
  }

  predicate LinkOk(l: Link) {
    && l.handled <= |l.outbox|
    && l.view == SeeAll(map[], l.outbox[..l.handled])
    && Ordered(l.outbox)
    && (l.ready || Ready in l.inbox ==> WorldSentBefore(l.outbox, l.handled))
  }

  /** What the link of a connected client says of the world. */
  predicate InStep(l: Link, entities: Entities) {
    && Submap(FinalView(l), entities)
    && (WorldSentBefore(l.outbox, |l.outbox|) ==> FinalView(l) == entities)
  }

  predicate Inv(w: World) {
    && 0 !in w.entities
    && (forall id :: id in w.entities ==> w.entities[id].id == id)
    && (forall c :: c in w.clients ==> c in w.links)
    && (forall c :: c in w.links ==> LinkOk(w.links[c]))
    && (forall c :: c in w.clients ==> InStep(w.links[c], w.entities))
    && (forall i :: 0 <= i < |w.recent| ==> w.recent[i].Chat?)
  }

  // ---------------------------------------------------------------- queueing

  lemma {:induction false} SeeConcat(v: Entities, a: seq<ServerMsg>, b: seq<ServerMsg>)
    ensures SeeAll(v, a + b) == SeeAll(SeeAll(v, a), b)
    decreases |b|
  {
    if b == [] {
      assert a + b == a;
    } else {
      assert (a + b)[..|a + b| - 1] == a + b[..|b| - 1];
      SeeConcat(v, a, b[..|b| - 1]);
    }
  }

  /** Messages that neither create nor destroy leave the view alone. */
  lemma {:induction false} SeeNothing(v: Entities, ms: seq<ServerMsg>)
    requires forall i :: 0 <= i < |ms| ==> See(v, ms[i]) == v
    ensures SeeAll(v, ms) == v
  {
    if ms != [] {
      SeeNothing(v, ms[..|ms| - 1]);
    }
  }

  /** Queueing one more message keeps a link in order, if the message may come now. */
  lemma {:induction false} QueueOne(l: Link, m: ServerMsg)
    requires LinkOk(l)
    requires m.GameStateUpdate? ==> WorldSentBefore(l.outbox, |l.outbox|)
    requires m.WorldSent? ==> forall id :: id in m.held ==> Announced(l.outbox, |l.outbox|, m.held[id])
    ensures LinkOk(Queue(l, [m]))
    ensures FinalView(Queue(l, [m])) == See(FinalView(l), m)
    ensures WorldSentBefore(Queue(l, [m]).outbox, |l.outbox| + 1)
            <==> WorldSentBefore(l.outbox, |l.outbox|) || m.WorldSent?
  {
    var ms := l.outbox + [m];
    assert ms[..|l.outbox|] == l.outbox;
    assert ms[..l.handled] == l.outbox[..l.handled];
    forall n: nat | n <= |l.outbox| ensures WorldSentBefore(ms, n) <==> WorldSentBefore(l.outbox, n) {
      PrefixKeeps(l.outbox, m, n);
    }
    forall j | 0 <= j < |ms| && ms[j].WorldSent?
      ensures forall id :: id in ms[j].held ==> Announced(ms, j, ms[j].held[id])
    {
      forall id | id in ms[j].held ensures Announced(ms, j, ms[j].held[id]) {
        AnnouncedKeeps(l.outbox, m, j, ms[j].held[id]);
      }
    }
    SentLast(l.outbox, m);
  }

  lemma {:induction false} PrefixKeeps(ms: seq<ServerMsg>, m: ServerMsg, n: nat)
    requires n <= |ms|
    ensures WorldSentBefore(ms + [m], n) <==> WorldSentBefore(ms, n)
  {
    if WorldSentBefore(ms, n) {
      var j :| 0 <= j < n && ms[j].WorldSent?;
      assert (ms + [m])[j].WorldSent?;
    }
    if WorldSentBefore(ms + [m], n) {
      var j :| 0 <= j < n && (ms + [m])[j].WorldSent?;
      assert ms[j].WorldSent?;
    }
  }

  lemma {:induction false} AnnouncedKeeps(ms: seq<ServerMsg>, m: ServerMsg, n: nat, e: Entity)
    requires n <= |ms| && Announced(ms, n, e)
    ensures Announced(ms + [m], n, e)
  {
    var i :| 0 <= i < n && ms[i] == EntityCreate(e);
    assert (ms + [m])[i] == EntityCreate(e);
  }

  lemma {:induction false} SentLast(ms: seq<ServerMsg>, m: ServerMsg)
    ensures WorldSentBefore(ms + [m], |ms| + 1) <==> WorldSentBefore(ms, |ms|) || m.WorldSent?
  {
    PrefixKeeps(ms, m, |ms|);
    if m.WorldSent? {
      assert (ms + [m])[|ms|].WorldSent?;
    }
    if WorldSentBefore(ms + [m], |ms| + 1) && !m.WorldSent? {
      var j :| 0 <= j < |ms| + 1 && (ms + [m])[j].WorldSent?;
      assert j < |ms|;
    }
  }

  /** Queueing messages that are neither updates nor the end of a world. */
  lemma {:induction false} QueuePlain(l: Link, ms: seq<ServerMsg>)
    requires LinkOk(l)
    requires forall i :: 0 <= i < |ms| ==> !ms[i].GameStateUpdate? && !ms[i].WorldSent?
    ensures LinkOk(Queue(l, ms))
    ensures FinalView(Queue(l, ms)) == SeeAll(FinalView(l), ms)
    ensures WorldSentBefore(Queue(l, ms).outbox, |l.outbox| + |ms|) <==> WorldSentBefore(l.outbox, |l.outbox|)
    decreases |ms|
  {
    hide LinkOk, WorldSentBefore, SeeAll;
    if ms == [] {
      assert Queue(l, ms) == l;
      SeeNone(FinalView(l));
    } else {
      var n := |ms| - 1;
      QueuePlain(l, ms[..n]);
      QueueOne(Queue(l, ms[..n]), ms[n]);
      assert l.outbox + ms == l.outbox + ms[..n] + [ms[n]];
      assert Queue(Queue(l, ms[..n]), [ms[n]]) == Queue(l, ms);
      SeeLast(FinalView(l), ms);
    }
  }

  lemma {:induction false} SeeNone(v: Entities)
    ensures SeeAll(v, []) == v
  {
  }

  lemma {:induction false} SeeLast(v: Entities, ms: seq<ServerMsg>)
    requires ms != []
    ensures SeeAll(v, ms) == See(SeeAll(v, ms[..|ms| - 1]), ms[|ms| - 1])
  {
  }

  // ---------------------------------------------------------------- sending the world

  /** Handling all create messages over a view that holds nothing else gives the whole table. */
  lemma {:induction false} SeeCreates(v: Entities, es: Entities, order: seq<Eid>)
    requires forall id :: id in order ==> id in es
    requires forall id :: id in es ==> es[id].id == id
    ensures var r := SeeAll(v, Creates(es, order));
            && (forall id :: id in r <==> id in v || id in order)
            && (forall id :: id in order ==> r[id] == es[id])
            && (forall id :: id in v && id !in order ==> r[id] == v[id])
    decreases |order|
  {
    hide SeeAll;
    if order == [] {
      SeeNone(v);
    } else {
      var v' := v[order[0] := es[order[0]]];
      var rest := Creates(es, order[1..]);
      SeeCreates(v', es, order[1..]);
      SeeConcat(v, [EntityCreate(es[order[0]])], rest);
      SeeLast(v, [EntityCreate(es[order[0]])]);
      SeeNone(v);
      assert order == [order[0]] + order[1..];
    }
  }

  lemma {:induction false} CreatesAt(es: Entities, order: seq<Eid>, i: nat)
    requires (forall id :: id in order ==> id in es) && i < |order|
    ensures Creates(es, order)[i] == EntityCreate(es[order[i]])
  {
    if i > 0 {
      CreatesAt(es, order[1..], i - 1);
    }
  }

  /** What precedes the world-sent message is neither that nor an update. */
  lemma {:induction false} PlainFront(w: World, order: seq<Eid>, front: seq<ServerMsg>)
    requires Walk(w.entities, order) && front == [Authenticated] + [GREETING] + Creates(w.entities, order)
    ensures forall i :: 0 <= i < |front| ==> !front[i].GameStateUpdate? && !front[i].WorldSent?
  {
    hide Creates;
    forall i | 0 <= i < |front| ensures !front[i].GameStateUpdate? && !front[i].WorldSent? {
      if i >= 2 {
        CreatesAt(w.entities, order, i - 2);
      }
    }
  }

  lemma {:induction false} AllAnnounced(outbox: seq<ServerMsg>, es: Entities, order: seq<Eid>)
    requires Walk(es, order)
    ensures var sent := outbox + ([Authenticated] + [GREETING] + Creates(es, order));
            forall id :: id in es ==> Announced(sent, |sent|, es[id])
  {
    hide Creates;
    var sent := outbox + ([Authenticated] + [GREETING] + Creates(es, order));
    forall id | id in es ensures Announced(sent, |sent|, es[id]) {
      var i :| 0 <= i < |order| && order[i] == id;
      CreatesAt(es, order, i);
      assert sent[|outbox| + 2 + i] == EntityCreate(es[id]);
    }
  }

  /** After its world has been queued a client's final view is the server's table. */
  lemma {:induction false} QueueWorld(l: Link, w: World, order: seq<Eid>)
    requires LinkOk(l) && Inv(w) && Walk(w.entities, order) && Submap(FinalView(l), w.entities)
    ensures var r := Queue(l, [Authenticated] + SendWorld(w, order));
            LinkOk(r) && FinalView(r) == w.entities
  {
    hide LinkOk, SeeAll, WorldSentBefore, Creates, InStep;
    var creates := Creates(w.entities, order);
    var front := [Authenticated] + [GREETING] + creates;
    var l1 := Queue(l, front);
    PlainFront(w, order, front);
    QueuePlain(l, front);
    WorldView(FinalView(l), w, order);
    AllAnnounced(l.outbox, w.entities, order);
    QueueOne(l1, WorldSent(w.entities));
    var l2 := Queue(l1, [WorldSent(w.entities)]);
    QueuePlain(l2, w.recent);
    SeeNothing(w.entities, w.recent);
    assert Queue(l2, w.recent) == Queue(l, [Authenticated] + SendWorld(w, order)) by {
      assert l.outbox + front + [WorldSent(w.entities)] + w.recent
          == l.outbox + ([Authenticated] + SendWorld(w, order));
    }
  }

  lemma {:induction false} WorldView(v: Entities, w: World, order: seq<Eid>)
    requires Inv(w) && Walk(w.entities, order) && Submap(v, w.entities)
    ensures SeeAll(v, [Authenticated] + [GREETING] + Creates(w.entities, order)) == w.entities
  {
    hide SeeAll, LinkOk, InStep;
    var creates := Creates(w.entities, order);
    SeeConcat(v, [Authenticated] + [GREETING], creates);
    SeeNothing(v, [Authenticated] + [GREETING]);
    SeeCreates(v, w.entities, order);
    var r := SeeAll(v, creates);
    assert r.Keys == w.entities.Keys;
  }

  // ---------------------------------------------------------------- preservation

  lemma {:induction false} BroadcastInv(w: World, m: ServerMsg, v: World)
    requires v == Broadcast(w, m) && !m.GameStateUpdate? && !m.WorldSent?
    requires 0 !in w.entities && forall id :: id in w.entities ==> w.entities[id].id == id
    requires forall c :: c in w.clients ==> c in w.links
    requires forall c :: c in w.links ==> LinkOk(w.links[c])
    requires forall i :: 0 <= i < |w.recent| ==> w.recent[i].Chat?
    requires forall c :: c in w.clients ==>
               && Submap(See(FinalView(w.links[c]), m), w.entities)
               && (WorldSentBefore(w.links[c].outbox, |w.links[c].outbox|)
                   ==> See(FinalView(w.links[c]), m) == w.entities)
    ensures Inv(v)
  {
    hide LinkOk, WorldSentBefore, FinalView, See;
    forall c | c in w.clients ensures LinkOk(v.links[c]) && InStep(v.links[c], v.entities) {
      QueueOne(w.links[c], m);
    }
  }

  lemma {:induction false} CreatedInv(w: World, e: Entity)
    requires Inv(w) && e.id != 0
    ensures Inv(OnCreated(w, e))
  {
    hide LinkOk, WorldSentBefore, FinalView;
    BroadcastInv(w.(entities := w.entities[e.id := e]), EntityCreate(e), OnCreated(w, e));
  }

  lemma {:induction false} DestroyedInv(w: World, id: Eid)
    requires Inv(w) && id != 0
    ensures Inv(OnDestroyed(w, id))
  {
    hide LinkOk, WorldSentBefore, FinalView;
    BroadcastInv(w.(entities := w.entities - {id}), EntityDestroy(id), OnDestroyed(w, id));
  }

  lemma {:induction false} DisconnectInv(w: World, c: ClientId)
    requires Inv(w) && c in w.clients
    ensures Inv(Disconnect(w, c))
  {
    hide LinkOk, WorldSentBefore, FinalView;
    var gone := w.(clients := w.clients - {c});
    if w.links[c].loggedIn {
      forall d | d in gone.clients ensures See(FinalView(w.links[d]), ClientLeft(0)) == FinalView(w.links[d]) {
        assert InStep(w.links[d], w.entities);
        assert 0 !in FinalView(w.links[d]);
      }
      BroadcastInv(gone, ClientLeft(0), Disconnect(w, c));
    }
  }

  /** A message that does not touch the view can go to everyone. */
  lemma {:induction false} NeutralInv(w: World, m: ServerMsg)
    requires Inv(w) && (m.Chat? || m.ClientJoined?)
    ensures Inv(Broadcast(w, m))
  {
    hide LinkOk, WorldSentBefore, FinalView;
    forall c | c in w.clients ensures InStep(w.links[c], w.entities) {
    }
    BroadcastInv(w, m, Broadcast(w, m));
  }

  /** Changing one link that stays in order, and in step if its client is connected. */
  lemma {:induction false} OneLinkInv(w: World, c: ClientId, l: Link)
    requires Inv(w) && c in w.links && LinkOk(l) && (c in w.clients ==> InStep(l, w.entities))
    ensures Inv(w.(links := w.links[c := l]))
  {
    hide LinkOk, InStep;
  }

  lemma {:induction false} PopInv(l: Link, entities: Entities)
    requires LinkOk(l) && InStep(l, entities) && l.inbox != []
    ensures LinkOk(l.(inbox := l.inbox[1..])) && InStep(l.(inbox := l.inbox[1..]), entities)
    ensures l.inbox[0] == Ready ==> WorldSentBefore(l.outbox, l.handled)
  {
    hide SeeAll, Ordered, WorldSentBefore;
    assert forall x :: x in l.inbox[1..] ==> x in l.inbox;
  }

  lemma {:induction false} ProcessInv(w: World, c: ClientId, order: seq<Eid>, newId: Eid)
    requires Inv(w) && Enabled(w, ServerReads(c, order, newId))
    ensures Inv(Process(w, c, order, newId))
  {
    hide LinkOk, InStep, Broadcast, SendWorld, Disconnect;
    var l := w.links[c].(inbox := w.links[c].inbox[1..]);
    PopInv(w.links[c], w.entities);
    OneLinkInv(w, c, l);
    var popped := w.(links := w.links[c := l]);
    match w.links[c].inbox[0]
    case Login(true) =>
      SetFlags(l, true, l.ready, w.entities);
      var l' := l.(loggedIn := true);
      assert Submap(FinalView(l'), w.entities) by { InStepView(l', w.entities); }
      QueueWorld(l', w, order);
      var r := Queue(l', [Authenticated] + SendWorld(w, order));
      WholeView(r, w.entities);
      OneLinkInv(popped, c, r);
      assert popped.(links := popped.links[c := r]) == Process(w, c, order, newId);
    case Login(false) => DisconnectInv(popped, c);
    case Join =>
      if l.loggedIn {
        QueueNeutral(l, ClientIdIs(newId), w.entities);
        OneLinkInv(popped, c, Queue(l, [ClientIdIs(newId)]));
        NeutralInv(popped.(links := popped.links[c := Queue(l, [ClientIdIs(newId)])]), ClientJoined(newId));
      }
    case Ready =>
      SetReady(l, w.entities);
      OneLinkInv(popped, c, l.(ready := true));
    case ChatFrom(t) =>
      RecentInv(popped, Remember(w.recent, Chat(t)));
      NeutralInv(popped.(recent := Remember(w.recent, Chat(t))), Chat(t));
    case Command =>
  }

  lemma {:induction false} RecentInv(w: World, recent: seq<ServerMsg>)
    requires Inv(w) && forall i :: 0 <= i < |recent| ==> recent[i].Chat?
    ensures Inv(w.(recent := recent))
  {
    hide LinkOk, InStep;
  }

  lemma {:induction false} SetFlags(l: Link, loggedIn: bool, ready: bool, entities: Entities)
    requires LinkOk(l) && InStep(l, entities) && ready == l.ready
    ensures LinkOk(l.(loggedIn := loggedIn)) && InStep(l.(loggedIn := loggedIn), entities)
  {
    hide SeeAll, Ordered, WorldSentBefore;
  }

  lemma {:induction false} SetReady(l: Link, entities: Entities)
    requires LinkOk(l) && InStep(l, entities) && WorldSentBefore(l.outbox, l.handled)
    ensures LinkOk(l.(ready := true)) && InStep(l.(ready := true), entities)
  {
    hide SeeAll, Ordered, WorldSentBefore;
  }

  lemma {:induction false} InStepView(l: Link, entities: Entities)
    requires InStep(l, entities)
    ensures Submap(FinalView(l), entities)
  {
  }

  lemma {:induction false} WholeView(l: Link, entities: Entities)
    requires FinalView(l) == entities
    ensures InStep(l, entities)
  {
    hide FinalView, WorldSentBefore;
  }

  lemma {:induction false} QueueNeutral(l: Link, m: ServerMsg, entities: Entities)
    requires LinkOk(l) && InStep(l, entities) && m.ClientIdIs?
    ensures LinkOk(Queue(l, [m])) && InStep(Queue(l, [m]), entities)
  {
    hide LinkOk, WorldSentBefore, FinalView;
    QueueOne(l, m);
  }

  lemma {:induction false} TickInv(w: World)
    requires Inv(w)
    ensures Inv(Tick(w))
  {
    hide LinkOk, WorldSentBefore, FinalView;
    var id := w.stateId + 1;
    forall c | c in w.links && w.links[c].ready
      ensures LinkOk(Queue(w.links[c], [GameStateUpdate(id)]))
      ensures c in w.clients ==> InStep(Queue(w.links[c], [GameStateUpdate(id)]), w.entities)
    {
      ReadyMeansSent(w.links[c]);
      QueueOne(w.links[c], GameStateUpdate(id));
    }
  }

  lemma {:induction false} ReadyMeansSent(l: Link)
    requires LinkOk(l) && l.ready
    ensures WorldSentBefore(l.outbox, |l.outbox|)
  {
    var j :| 0 <= j < l.handled && l.outbox[j].WorldSent?;
    assert l.outbox[j].WorldSent?;
  }

  lemma {:induction false} ClientReadsInv(l: Link)
    requires LinkOk(l) && l.handled < |l.outbox|
    ensures LinkOk(ClientHandles(l)) && FinalView(ClientHandles(l)) == FinalView(l)
  {
    var m := l.outbox[l.handled];
    assert l.outbox[..l.handled + 1][..l.handled] == l.outbox[..l.handled];
    if WorldSentBefore(l.outbox, l.handled) {
      var j :| 0 <= j < l.handled && l.outbox[j].WorldSent?;
      assert j < l.handled + 1 && l.outbox[j].WorldSent?;
    }
    if m.WorldSent? {
      assert WorldSentBefore(l.outbox, l.handled + 1);
    }
  }

  lemma {:induction false} UserSendsInv(l: Link, m: ClientMsg)
    requires LinkOk(l) && m != Ready
    ensures LinkOk(l.(inbox := l.inbox + [m]))
  {
    hide SeeAll, Ordered, WorldSentBefore;
  }

  lemma {:induction false} ConnectInv(w: World, c: ClientId)
    requires Inv(w) && c !in w.links
    ensures Inv(Connect(w, c))
  {
    hide LinkOk, InStep;
    FreshLink(w.entities);
  }

  lemma {:induction false} FreshLink(entities: Entities)
    ensures var l := Link([], 0, map[], [], false, false); LinkOk(l) && InStep(l, entities)
  {
  }

  lemma {:induction false} StepInv(w: World, s: Step)
    requires Inv(w) && Enabled(w, s)
    ensures Inv(Apply(w, s))
  {
    hide LinkOk, InStep, Process, OnCreated, OnDestroyed, Disconnect, Tick, Connect;
    match s
    case Accept(c) => ConnectInv(w, c);
    case Created(e) => CreatedInv(w, e);
    case Destroyed(id) => DestroyedInv(w, id);
    case ServerReads(c, order, newId) => ProcessInv(w, c, order, newId);
    case Drop(c) => DisconnectInv(w, c);
    case ClientReads(c) =>
      ClientReadsInv(w.links[c]);
      StillInStep(w.links[c], ClientHandles(w.links[c]), w.entities);
      OneLinkInv(w, c, ClientHandles(w.links[c]));
    case UserSends(c, m) =>
      var l := w.links[c].(inbox := w.links[c].inbox + [m]);
      UserSendsInv(w.links[c], m);
      StillInStep(w.links[c], l, w.entities);
      OneLinkInv(w, c, l);
    case SimulationTick => TickInv(w);
  }

  /** Only what is queued matters for being in step. */
  lemma {:induction false} StillInStep(l: Link, l': Link, entities: Entities)
    requires l'.outbox == l.outbox
    ensures InStep(l, entities) ==> InStep(l', entities)
  {
  }

  lemma {:induction false} RunInv(w: World, steps: seq<Step>, v: World)
    requires Inv(w) && Run(w, steps, v)
    ensures Inv(v)
    decreases |steps|
  {
    hide Inv, Apply, Enabled;
    if steps != [] {
      StepInv(w, steps[0]);
      RunInv(Apply(w, steps[0]), steps[1..], v);
    }
  }

  lemma {:induction false} InitInv()
    ensures Inv(Init())
  {
  }

  // ---------------------------------------------------------------- main results

  /**
   In every reachable state, handling its undelivered messages over its present view gives a
   connected client that has been sent the world exactly the server's entity table.
   */
  lemma {:induction false} Replicated(steps: seq<Step>, w: World, c: ClientId)
    requires Run(Init(), steps, w) && c in w.clients && c in w.links
    requires WorldSentBefore(w.links[c].outbox, |w.links[c].outbox|)
    ensures w.links[c].handled <= |w.links[c].outbox|
    ensures SeeAll(w.links[c].view, w.links[c].outbox[w.links[c].handled..]) == w.entities
  {
    hide Run, SeeAll, WorldSentBefore, Ordered;
    InitInv();
    RunInv(Init(), steps, w);
    var l := w.links[c];
    assert LinkOk(l) && InStep(l, w.entities);
    SeeConcat(map[], l.outbox[..l.handled], l.outbox[l.handled..]);
    assert l.outbox == l.outbox[..l.handled] + l.outbox[l.handled..];
  }

  /**
   In every run of the handshake with the shipped client, a state update is queued only behind
   the end-of-world message, and that one only behind a create message for every entity the
   server held when it sent the world.
   */
  lemma {:induction false} UpdatesAfterWorld(steps: seq<Step>, w: World, c: ClientId)
    requires Run(Init(), steps, w) && c in w.links
    ensures Ordered(w.links[c].outbox)
    ensures w.links[c].ready ==> WorldSentBefore(w.links[c].outbox, |w.links[c].outbox|)
  {
    hide Run, SeeAll, WorldSentBefore, Ordered;
    InitInv();
    RunInv(Init(), steps, w);
    assert LinkOk(w.links[c]);
    if w.links[c].ready {
      ReadyMeansSent(w.links[c]);
    }
  }
}
