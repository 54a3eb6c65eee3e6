/**
 The server's handlers as they run: tables updated in place and loops over the connected
 clients. Each is proved to have the effect of its step in `Replication`.
 */
module Servers {
  import opened Replication

  /** `Server`, with each client's connection as a link. */
  class Server {
    var entities: Entities
    var clients: set<ClientId>
    var links: map<ClientId, Link>
    var recentMsgs: seq<ServerMsg>
    var currentStateId: nat

    constructor ()
      ensures AsWorld() == Init()
    {
      entities, clients, links, recentMsgs, currentStateId := map[], {}, map[], [], 0;
    }

    ghost function AsWorld(): (w: World)
      reads this
    {
      World(entities, clients, links, recentMsgs, currentStateId)
    }

    /** `QueueWrite` on one client. */
    method QueueWrite(c: ClientId, msg: ServerMsg)
      requires c in links
      modifies this`links
      ensures links == old(links)[c := Queue(old(links)[c], [msg])]
    {
      links := links[c := links[c].(outbox := links[c].outbox + [msg])];
    }

    /** `Server::Deliver` to all clients, with the recent-message list if asked to save. */
    method Deliver(msg: ServerMsg, saveToRecent: bool)
      requires clients <= links.Keys
      modifies this`links, `recentMsgs
      ensures var w := old(AsWorld());
              AsWorld() == Broadcast(if saveToRecent then w.(recent := Remember(w.recent, msg)) else w, msg)
    {
      if saveToRecent {
        SaveRecent(msg);
      }
      ToAll(msg);
    }

    /** The loop of `Deliver` over the connected clients. */
    method ToAll(msg: ServerMsg)
      requires clients <= links.Keys
      modifies this`links
      ensures links == Broadcast(old(AsWorld()), msg).links
    {
      hide QueuedTo;
      ghost var was := links;
      var todo := clients;
      QueuedToNone(was, msg);
      assert clients - todo == {};
      while todo != {}
        invariant todo <= clients <= was.Keys && QueuedTo(links, was, clients - todo, msg)
        decreases |todo|
      {
        var c :| c in todo;
        QueuedToNext(links, was, clients - todo, c, msg);
        assert clients - (todo - {c}) == clients - todo + {c};
        todo := todo - {c};
        QueueWrite(c, msg);
      }
      assert clients - todo == clients;
      QueuedToAll(links, was, clients, old(AsWorld()), msg);
    }

    method SaveRecent(msg: ServerMsg)
      modifies this`recentMsgs
      ensures recentMsgs == Remember(old(recentMsgs), msg)
    {
      ghost var all := recentMsgs + [msg];
      recentMsgs := recentMsgs + [msg];
      while |recentMsgs| > MAX_RECENT
        invariant |recentMsgs| <= |all| && recentMsgs == all[|all| - |recentMsgs|..]
        invariant |recentMsgs| >= MAX_RECENT || |recentMsgs| == |all|
      {
        recentMsgs := recentMsgs[1..];
      }
    }

    /** One more message for a client whose link is base with `sofar` queued. */
    method QueueMore(c: ClientId, msg: ServerMsg, ghost base: Link, ghost sofar: seq<ServerMsg>)
      requires c in links && links[c] == Queue(base, sofar)
      modifies this`links
      ensures links == old(links)[c := Queue(base, sofar + [msg])]
    {
      assert base.outbox + sofar + [msg] == base.outbox + (sofar + [msg]);
      QueueWrite(c, msg);
    }

    /** The create messages of `SendWorld`; the entity table is walked in whatever order it yields. */
    method SendEntities(c: ClientId, ghost base: Link) returns (ghost order: seq<Eid>)
      requires c in links && links[c] == Queue(base, [GREETING])
      modifies this`links
      ensures Walk(entities, order)
      ensures links == old(links)[c := Queue(base, [GREETING] + Creates(entities, order))]
    {
      hide Queue;
      order := [];
      var todo := entities.Keys;
      assert [GREETING] + Creates(entities, []) == [GREETING];
      assert links == links[c := links[c]];
      while todo != {}
        invariant todo <= entities.Keys
        invariant forall id :: id in entities ==> (id in order <==> id !in todo)
        invariant forall id :: id in order ==> id in entities
        invariant forall i, j :: 0 <= i < j < |order| ==> order[i] != order[j]
        invariant links == old(links)[c := Queue(base, [GREETING] + Creates(entities, order))]
        decreases |todo|
      {
        var id :| id in todo;
        CreatesLast(entities, order, id);
        assert [GREETING] + Creates(entities, order) + [EntityCreate(entities[id])]
            == [GREETING] + Creates(entities, order + [id]);
        QueueMore(c, EntityCreate(entities[id]), base, [GREETING] + Creates(entities, order));
        order := order + [id];
        todo := todo - {id};
      }
    }

    /** The recent chat messages at the end of `SendWorld`. */
    method SendRecent(c: ClientId, ghost base: Link, ghost sofar: seq<ServerMsg>)
      requires c in links && links[c] == Queue(base, sofar)
      modifies this`links
      ensures links == old(links)[c := Queue(base, sofar + recentMsgs)]
    {
      hide Queue;
      assert sofar + recentMsgs[..0] == sofar;
      assert links == links[c := links[c]];
      for i := 0 to |recentMsgs|
        invariant links == old(links)[c := Queue(base, sofar + recentMsgs[..i])]
      {
        assert sofar + recentMsgs[..i] + [recentMsgs[i]] == sofar + recentMsgs[..i + 1];
        QueueMore(c, recentMsgs[i], base, sofar + recentMsgs[..i]);
      }
      assert recentMsgs[..|recentMsgs|] == recentMsgs;
    }

    /** `Server::SendWorld` */
    method SendWorld(c: ClientId) returns (ghost order: seq<Eid>)
      requires c in links
      modifies this`links
      ensures Walk(entities, order)
      ensures links == old(links)[c := Queue(old(links)[c], Replication.SendWorld(old(AsWorld()), order))]
    {
      ghost var base := links[c];
      QueueWrite(c, GREETING);
      order := SendEntities(c, base);
      ghost var sofar := [GREETING] + Creates(entities, order);
      QueueMore(c, WorldSent(entities), base, sofar);
      SendRecent(c, base, sofar + [WorldSent(entities)]);
    }

    /** `Server::On(EntityCreated)` */
    method OnEntityCreated(e: Entity)
      requires clients <= links.Keys
      modifies this
      ensures AsWorld() == OnCreated(old(AsWorld()), e)
    {
      entities := entities[e.id := e];
      Deliver(EntityCreate(e), false);
    }

    /** `Server::On(EntityDestroyed)` */
    method OnEntityDestroyed(id: Eid)
      requires clients <= links.Keys
      modifies this
      ensures AsWorld() == OnDestroyed(old(AsWorld()), id)
    {
      entities := entities - {id};
      Deliver(EntityDestroy(id), false);
    }

    /** `Server::OnDisconnect`; nothing happens for a client that is no longer in the set. */
    method OnDisconnect(c: ClientId)
      requires clients <= links.Keys
      modifies this
      ensures AsWorld() == if c in old(clients) then Disconnect(old(AsWorld()), c) else old(AsWorld())
    {
      if c !in clients {
        return;
      }
      clients := clients - {c};
      if links[c].loggedIn {
        Deliver(ClientLeft(0), false);
      }
    }

    /** The per-client loop of the simulation thread. */
    method SimulationTick()
      requires clients <= links.Keys
      modifies this
      ensures AsWorld() == Tick(old(AsWorld()))
    {
      hide Queue, QueuedTo;
      currentStateId := currentStateId + 1;
      ghost var was, done, msg := links, {}, GameStateUpdate(currentStateId);
      var todo := clients;
      QueuedToNone(was, msg);
      while todo != {}
        invariant todo <= clients <= was.Keys && clients == old(clients) && QueuedTo(links, was, done, msg)
        invariant done == set c | c in clients && c !in todo && was[c].ready
        invariant entities == old(entities) && recentMsgs == old(recentMsgs)
        invariant msg == GameStateUpdate(currentStateId) && currentStateId == old(currentStateId) + 1
        decreases |todo|
      {
        var c :| c in todo;
        todo := todo - {c};
        QueuedToNext(links, was, done, c, msg);
        if links[c].ready {
          QueueWrite(c, GameStateUpdate(currentStateId));
          done := done + {c};
        }
      }
      Ticked(links, was, done, old(AsWorld()));
    }
  }

  /** Exactly the links of the clients in `to` have one more message. */
  ghost predicate QueuedTo(links: map<ClientId, Link>, was: map<ClientId, Link>, to: set<ClientId>, msg: ServerMsg) {
    && links.Keys == was.Keys
    && forall c :: c in was ==> links[c] == if c in to then Queue(was[c], [msg]) else was[c]
  }

  lemma {:induction false} QueuedToNone(was: map<ClientId, Link>, msg: ServerMsg)
    ensures QueuedTo(was, was, {}, msg)
  {
  }

  lemma {:induction false} QueuedToNext(links: map<ClientId, Link>, was: map<ClientId, Link>, to: set<ClientId>,
                                        c: ClientId, msg: ServerMsg)
    requires QueuedTo(links, was, to, msg) && c in was && c !in to
    ensures c in links && links[c] == was[c]
    ensures QueuedTo(links[c := Queue(links[c], [msg])], was, to + {c}, msg)
  {
    hide Queue;
  }

  lemma {:induction false} QueuedToAll(links: map<ClientId, Link>, was: map<ClientId, Link>, to: set<ClientId>,
                                       w: World, msg: ServerMsg)
    requires QueuedTo(links, was, to, msg) && w.links == was && w.clients == to
    ensures links == Broadcast(w, msg).links
  {
    hide Queue;
  }

  lemma {:induction false} Ticked(links: map<ClientId, Link>, was: map<ClientId, Link>, to: set<ClientId>, w: World)
    requires w.links == was && w.clients <= was.Keys && to == set c | c in w.clients && was[c].ready
    requires QueuedTo(links, was, to, GameStateUpdate(w.stateId + 1))
    ensures links == Tick(w).links
  {
    hide Queue;
  }

  lemma {:induction false} CreatesLast(es: Entities, order: seq<Eid>, id: Eid)
    requires id in es && forall x :: x in order ==> x in es
    ensures Creates(es, order + [id]) == Creates(es, order) + [EntityCreate(es[id])]
    decreases |order|
  {
    if order == [] {
      assert [id][1..] == [];
    } else {
      assert (order + [id])[1..] == order[1..] + [id];
      CreatesLast(es, order[1..], id);
    }
  }
}
