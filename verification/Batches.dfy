/**
 The client handles entity events through two queues. Each call exchanges and empties the queue of creates first,
 and only then that of destroys, while messages keep coming in. When the entities are those that the messages in
 their order give, and so the server's.
 */
module Batches {
  import opened Replication

  /** The entities a message takes away. */
  function Removed(m: ServerMsg): (ids: set<Eid>) {
    match m
    case EntityDestroy(id) => {id}
    case ClientLeft(id) => {id}
    case _ => {}
  }

  predicate Makes(m: ServerMsg, id: Eid) {
    m.EntityCreate? && m.e.id == id
  }

  // ---------------------------------------------------------------- one entity

  /** What happens to one entity. */
  datatype Change = Keep | Gone | Is(e: Entity)

  predicate Changed(before: Entities, c: Change, after: Entities, id: Eid) {
    match c
    case Keep => (id in after <==> id in before) && (id in before ==> after[id] == before[id])
    case Gone => id !in after
    case Is(e) => id in after && after[id] == e
  }

  function Once(c: Change, m: ServerMsg, id: Eid): (r: Change) {
    if Makes(m, id) then Is(m.e) else if id in Removed(m) then Gone else c
  }

  /** The last message about the entity decides. */
  function Last(ms: seq<ServerMsg>, id: Eid): (c: Change) {
    if ms == [] then Keep else Once(Last(ms[..|ms| - 1], id), ms[|ms| - 1], id)
  }

  lemma {:induction false} SeeChanges(view: Entities, ms: seq<ServerMsg>, id: Eid)
    ensures Changed(view, Last(ms, id), SeeAll(view, ms), id)
  {
    if ms != [] {
      SeeChanges(view, ms[..|ms| - 1], id);
    }
  }

  lemma {:induction false} LastConcat(a: seq<ServerMsg>, b: seq<ServerMsg>, id: Eid)
    ensures Last(a + b, id) == if Last(b, id) == Keep then Last(a, id) else Last(b, id)
    decreases |b|
  {
    hide Removed, Makes;
    if b == [] {
      assert a + b == a;
    } else {
      assert (a + b)[..|a + b| - 1] == a + b[..|b| - 1];
      LastConcat(a, b[..|b| - 1], id);
    }
  }

  predicate SameAt(a: Entities, b: Entities, id: Eid) {
    (id in a <==> id in b) && (id in a ==> a[id] == b[id])
  }

  lemma {:induction false} ChangesAlike(view: Entities, c: Change, a: Entities, d: Change, b: Entities, id: Eid)
    requires Changed(view, c, a, id) && Changed(view, d, b, id) && (c == Keep <==> d == Keep)
    ensures c == d <==> SameAt(a, b, id)
  {
  }

  lemma {:induction false} SameTables(a: Entities, b: Entities)
    ensures a == b <==> forall id :: SameAt(a, b, id)
  {
    if forall id :: SameAt(a, b, id) {
      forall id ensures id in a <==> id in b {
        assert SameAt(a, b, id);
      }
      forall id | id in a ensures a[id] == b[id] {
        assert SameAt(a, b, id);
      }
    }
  }

  predicate About(m: ServerMsg, id: Eid) {
    Makes(m, id) || id in Removed(m)
  }

  /** Nothing happens to an entity exactly if no message is about it. */
  lemma {:induction false} KeepIff(ms: seq<ServerMsg>, id: Eid)
    ensures Last(ms, id) == Keep <==> forall m :: m in ms ==> !About(m, id)
  {
    hide Removed, Makes;
    if ms != [] {
      var front, m := ms[..|ms| - 1], ms[|ms| - 1];
      KeepIff(front, id);
      assert ms == front + [m];
      assert m in ms && forall x :: x in ms <==> x in front || x == m;
    }
  }

  // ---------------------------------------------------------------- any order of handling

  /** The same messages about entities, in whatever order. */
  ghost predicate SameEvents(hs: seq<ServerMsg>, ms: seq<ServerMsg>) {
    forall m, id :: About(m, id) ==> (m in hs <==> m in ms)
  }

  lemma {:induction false} KeptIfSame(hs: seq<ServerMsg>, ms: seq<ServerMsg>, id: Eid)
    requires SameEvents(hs, ms) && Last(hs, id) == Keep
    ensures Last(ms, id) == Keep
  {
    KeepIff(hs, id);
    KeepIff(ms, id);
  }

  lemma {:induction false} OrderAt(view: Entities, hs: seq<ServerMsg>, ms: seq<ServerMsg>, id: Eid)
    requires SameEvents(hs, ms)
    ensures Last(hs, id) == Last(ms, id) <==> SameAt(SeeAll(view, hs), SeeAll(view, ms), id)
  {
    hide SeeAll, SameAt, Changed;
    SeeChanges(view, hs, id);
    SeeChanges(view, ms, id);
    if Last(hs, id) == Keep {
      KeptIfSame(hs, ms, id);
    } else if Last(ms, id) == Keep {
      KeptIfSame(ms, hs, id);
    }
    ChangesAlike(view, Last(hs, id), SeeAll(view, hs), Last(ms, id), SeeAll(view, ms), id);
  }

  /**
   Messages handled in another order give what their own order gives if and only if the last event of every entity
   in the order of handling is its last event in the messages.
   */
  lemma {:induction false} OrderIff(view: Entities, hs: seq<ServerMsg>, ms: seq<ServerMsg>)
    requires SameEvents(hs, ms)
    ensures SeeAll(view, hs) == SeeAll(view, ms) <==> forall id :: Last(hs, id) == Last(ms, id)
  {
    hide SeeAll, SameEvents, SameAt;
    var a, b := SeeAll(view, hs), SeeAll(view, ms);
    SameTables(a, b);
    if a == b {
      forall id ensures Last(hs, id) == Last(ms, id) {
        OrderAt(view, hs, ms, id);
      }
    } else {
      var id :| !SameAt(a, b, id);
      OrderAt(view, hs, ms, id);
      assert Last(hs, id) != Last(ms, id);
    }
  }

  // ---------------------------------------------------------------- calls

  function CreatesOf(ms: seq<ServerMsg>): (r: seq<ServerMsg>) {
    if ms == [] then []
    else CreatesOf(ms[..|ms| - 1]) + if ms[|ms| - 1].EntityCreate? then [ms[|ms| - 1]] else []
  }

  function DestroysOf(ms: seq<ServerMsg>): (r: seq<ServerMsg>) {
    if ms == [] then []
    else DestroysOf(ms[..|ms| - 1]) + if Removed(ms[|ms| - 1]) != {} then [ms[|ms| - 1]] else []
  }

  /**
   One `ProcessEventQueue`: how many messages have come in when the queue of creates is exchanged, and how many when,
   after its handlers have run, the queue of destroys is.
   */
  datatype Call = Call(creates: nat, destroys: nat)

  /** What came in before stays in; all of it is handled once nothing waits. */
  predicate Calls(ms: seq<ServerMsg>, calls: seq<Call>) {
    && (forall k :: 0 <= k < |calls| ==> calls[k].creates <= |ms| && calls[k].destroys <= |ms|)
    && (forall k, l :: 0 <= k < l < |calls| ==>
          calls[k].creates <= calls[l].creates && calls[k].destroys <= calls[l].destroys)
  }

  function Reached(calls: seq<Call>): (c: Call) {
    if calls == [] then Call(0, 0) else calls[|calls| - 1]
  }

  /** The order in which the calls handle the events. */
  function Handled(ms: seq<ServerMsg>, calls: seq<Call>): (hs: seq<ServerMsg>)
    requires Calls(ms, calls)
  {
    if calls == [] then []
    else
      var front, c := calls[..|calls| - 1], calls[|calls| - 1];
      var r := Reached(front);
      Handled(ms, front) + CreatesOf(ms[r.creates..c.creates]) + DestroysOf(ms[r.destroys..c.destroys])
  }

  /** Where the last create of the entity is, or -1. */
  function LastMake(ms: seq<ServerMsg>, id: Eid): (c: int)
    ensures -1 <= c < |ms| && (c >= 0 ==> Makes(ms[c], id))
  {
    if ms == [] then -1 else if Makes(ms[|ms| - 1], id) then |ms| - 1 else LastMake(ms[..|ms| - 1], id)
  }

  /** Where the last destroy of the entity is, or -1. */
  function LastRemove(ms: seq<ServerMsg>, id: Eid): (d: int)
    ensures -1 <= d < |ms| && (d >= 0 ==> id in Removed(ms[d]))
  {
    if ms == [] then -1 else if id in Removed(ms[|ms| - 1]) then |ms| - 1 else LastRemove(ms[..|ms| - 1], id)
  }

  /** What is left of the two last events, given which of them comes last. */
  function Outcome(ms: seq<ServerMsg>, c: int, d: int, made: bool): (r: Change)
    requires -1 <= c < |ms| && (c >= 0 ==> ms[c].EntityCreate?)
  {
    if c >= 0 && (d < 0 || made) then Is(ms[c].e) else if d >= 0 then Gone else Keep
  }

  lemma {:induction false} LastOf(ms: seq<ServerMsg>, id: Eid)
    ensures Last(ms, id) == Outcome(ms, LastMake(ms, id), LastRemove(ms, id), LastMake(ms, id) > LastRemove(ms, id))
    ensures LastMake(ms, id) >= 0 ==> LastMake(ms, id) != LastRemove(ms, id)
  {
    if ms != [] {
      LastOf(ms[..|ms| - 1], id);
    }
  }

  lemma {:induction false} LastNext(ms: seq<ServerMsg>, m: ServerMsg, id: Eid)
    ensures Last(ms + [m], id) == Once(Last(ms, id), m, id)
  {
    assert (ms + [m])[..|ms|] == ms;
  }

  lemma {:induction false} CreatesLast(ms: seq<ServerMsg>, id: Eid)
    ensures Last(CreatesOf(ms), id) == if LastMake(ms, id) >= 0 then Is(ms[LastMake(ms, id)].e) else Keep
  {
    if ms != [] {
      var front, m := ms[..|ms| - 1], ms[|ms| - 1];
      CreatesLast(front, id);
      if m.EntityCreate? {
        LastNext(CreatesOf(front), m, id);
      } else {
        assert CreatesOf(ms) == CreatesOf(front);
      }
    }
  }

  lemma {:induction false} DestroysLast(ms: seq<ServerMsg>, id: Eid)
    ensures Last(DestroysOf(ms), id) == if LastRemove(ms, id) >= 0 then Gone else Keep
  {
    if ms != [] {
      var front, m := ms[..|ms| - 1], ms[|ms| - 1];
      DestroysLast(front, id);
      if Removed(m) != {} {
        LastNext(DestroysOf(front), m, id);
      } else {
        assert DestroysOf(ms) == DestroysOf(front);
      }
    }
  }

  /** The last create of a longer front is in what it adds, or the one of the shorter front. */
  lemma {:induction false} LastMakeSplit(ms: seq<ServerMsg>, i: nat, j: nat, id: Eid)
    requires i <= j <= |ms|
    ensures var s := ms[i..j];
            LastMake(ms[..j], id) == if LastMake(s, id) >= 0 then i + LastMake(s, id) else LastMake(ms[..i], id)
    decreases j
  {
    if i < j {
      LastMakeSplit(ms, i, j - 1, id);
      assert ms[..j][..j - 1] == ms[..j - 1] && ms[i..j][..j - 1 - i] == ms[i..j - 1];
    }
  }

  lemma {:induction false} LastRemoveSplit(ms: seq<ServerMsg>, i: nat, j: nat, id: Eid)
    requires i <= j <= |ms|
    ensures var s := ms[i..j];
            LastRemove(ms[..j], id) == if LastRemove(s, id) >= 0 then i + LastRemove(s, id) else LastRemove(ms[..i], id)
    decreases j
  {
    if i < j {
      LastRemoveSplit(ms, i, j - 1, id);
      assert ms[..j][..j - 1] == ms[..j - 1] && ms[i..j][..j - 1 - i] == ms[i..j - 1];
    }
  }

  /** Some call takes the destroy at d and leaves the create at c to a later one. */
  predicate Parts(calls: seq<Call>, c: int, d: int) {
    exists k :: 0 <= k < |calls| && d < calls[k].destroys && calls[k].creates <= c
  }

  lemma {:induction false} PartsNext(calls: seq<Call>, c: int, d: int)
    requires calls != []
    ensures var front, l := calls[..|calls| - 1], calls[|calls| - 1];
            Parts(calls, c, d) <==> Parts(front, c, d) || (d < l.destroys && l.creates <= c)
  {
    var front := calls[..|calls| - 1];
    if Parts(calls, c, d) {
      var k :| 0 <= k < |calls| && d < calls[k].destroys && calls[k].creates <= c;
      assert k < |front| ==> front[k] == calls[k];
    }
    if Parts(front, c, d) {
      var k :| 0 <= k < |front| && d < front[k].destroys && front[k].creates <= c;
      assert calls[k] == front[k];
    }
  }

  /** No call has gone further than the last one. */
  lemma {:induction false} PartsWithin(ms: seq<ServerMsg>, calls: seq<Call>, c: int, d: int)
    requires Calls(ms, calls) && Parts(calls, c, d)
    ensures d < Reached(calls).destroys
  {
  }

  /** What has been handled of an entity: its create stays exactly if a call parted it from its destroy. */
  lemma {:induction false} HandledLast(ms: seq<ServerMsg>, calls: seq<Call>, id: Eid)
    requires Calls(ms, calls)
    ensures var c := LastMake(ms[..Reached(calls).creates], id);
            var d := LastRemove(ms[..Reached(calls).destroys], id);
            Last(Handled(ms, calls), id) == Outcome(ms, c, d, Parts(calls, c, d))
    decreases |calls|
  {
    hide Last, Parts, Calls, Removed, Makes, CreatesOf, DestroysOf;
    if calls == [] {
      NothingHandled(ms, id);
    } else {
      var front, l := calls[..|calls| - 1], calls[|calls| - 1];
      assert Calls(ms, front) && Reached(front).creates <= l.creates <= |ms|
             && Reached(front).destroys <= l.destroys <= |ms| by { FrontCalls(ms, calls); }
      HandledLast(ms, front, id);
      HandledStep(ms, front, l, id);
      var c := LastMake(ms[..l.creates], id);
      var d := LastRemove(ms[..l.destroys], id);
      PartsNext(calls, c, d);
    }
  }

  lemma {:induction false} NothingHandled(ms: seq<ServerMsg>, id: Eid)
    ensures LastMake(ms[..0], id) == -1 && LastRemove(ms[..0], id) == -1 && Last([], id) == Keep
  {
  }

  lemma {:induction false} FrontCalls(ms: seq<ServerMsg>, calls: seq<Call>)
    requires Calls(ms, calls) && calls != []
    ensures var front, l := calls[..|calls| - 1], calls[|calls| - 1];
            && Calls(ms, front)
            && Reached(front).creates <= l.creates <= |ms| && Reached(front).destroys <= l.destroys <= |ms|
  {
  }

  /** One call more. */
  lemma {:induction false} HandledStep(ms: seq<ServerMsg>, front: seq<Call>, l: Call, id: Eid)
    requires Calls(ms, front)
    requires Reached(front).creates <= l.creates <= |ms| && Reached(front).destroys <= l.destroys <= |ms|
    requires var c := LastMake(ms[..Reached(front).creates], id);
             var d := LastRemove(ms[..Reached(front).destroys], id);
             Last(Handled(ms, front), id) == Outcome(ms, c, d, Parts(front, c, d))
    ensures var r := Reached(front);
            var c, d := LastMake(ms[..l.creates], id), LastRemove(ms[..l.destroys], id);
            Last(Handled(ms, front) + CreatesOf(ms[r.creates..l.creates]) + DestroysOf(ms[r.destroys..l.destroys]), id)
            == Outcome(ms, c, d, Parts(front, c, d) || (d < l.destroys && l.creates <= c))
  {
    hide Last, Calls, Removed, Makes, CreatesOf, DestroysOf, LastMake, LastRemove, Handled;
    var r := Reached(front);
    var made, gone := ms[r.creates..l.creates], ms[r.destroys..l.destroys];
    LastMakeSplit(ms, r.creates, l.creates, id);
    LastRemoveSplit(ms, r.destroys, l.destroys, id);
    CreatesLast(made, id);
    DestroysLast(gone, id);
    LastConcat(Handled(ms, front), CreatesOf(made), id);
    LastConcat(Handled(ms, front) + CreatesOf(made), DestroysOf(gone), id);
    var c, d := LastMake(ms[..l.creates], id), LastRemove(ms[..l.destroys], id);
    if LastRemove(gone, id) >= 0 {
      assert !Parts(front, c, d) by {
        if Parts(front, c, d) {
          PartsWithin(ms, front, c, d);
        }
      }
    } else if LastMake(made, id) >= 0 && d >= 0 {
      TakenBefore(front, c, d);
    }
  }

  /** A create that came in after the last call's exchange is parted from a destroy that this call took. */
  lemma {:induction false} TakenBefore(calls: seq<Call>, c: int, d: int)
    requires 0 <= d < Reached(calls).destroys && Reached(calls).creates <= c
    ensures Parts(calls, c, d)
  {
    assert calls[|calls| - 1] == Reached(calls);
  }

  /** All that came in has been handled. */
  predicate Settled(ms: seq<ServerMsg>, calls: seq<Call>) {
    Calls(ms, calls) && Reached(calls) == Call(|ms|, |ms|)
  }

  /** The entity's last event as the calls handle them is its last event in the messages. */
  predicate KeptOrder(ms: seq<ServerMsg>, calls: seq<Call>, id: Eid) {
    var c, d := LastMake(ms, id), LastRemove(ms, id);
    c >= 0 && d >= 0 ==> (c > d <==> Parts(calls, c, d))
  }

  lemma {:induction false} KeptOrderIff(ms: seq<ServerMsg>, calls: seq<Call>, id: Eid)
    requires Settled(ms, calls)
    ensures KeptOrder(ms, calls, id) <==> Last(Handled(ms, calls), id) == Last(ms, id)
    ensures Last(Handled(ms, calls), id) == Keep <==> Last(ms, id) == Keep
  {
    hide Last, Parts, LastMake, LastRemove, Handled, Calls;
    HandledLast(ms, calls, id);
    LastOf(ms, id);
    assert ms[..|ms|] == ms;
  }

  /**
   Once everything that came in has been handled, the calls have given what the messages in order give, if and only
   if for every entity with both events its last create comes after its last destroy exactly when some call took the
   destroy and left the create to a later one.
   */
  lemma {:induction false} CallsIff(view: Entities, ms: seq<ServerMsg>, calls: seq<Call>)
    requires Settled(ms, calls)
    ensures SeeAll(view, Handled(ms, calls)) == SeeAll(view, ms) <==> forall id :: KeptOrder(ms, calls, id)
  {
    hide SeeAll, Last, Handled, KeptOrder, Calls, SameAt, Changed;
    var hs := Handled(ms, calls);
    var a, b := SeeAll(view, hs), SeeAll(view, ms);
    forall id ensures KeptOrder(ms, calls, id) <==> SameAt(a, b, id) {
      KeptOrderIff(ms, calls, id);
      SeeChanges(view, hs, id);
      SeeChanges(view, ms, id);
      ChangesAlike(view, Last(hs, id), a, Last(ms, id), b, id);
    }
    SameTables(a, b);
  }

  // ---------------------------------------------------------------- special cases

  /** A create of the entity comes after its last destroy. */
  predicate Revived(ms: seq<ServerMsg>, id: Eid) {
    0 <= LastRemove(ms, id) < LastMake(ms, id)
  }

  /** One call whose two exchanges see the same messages. */
  function Drain(view: Entities, ms: seq<ServerMsg>): (r: Entities) {
    SeeAll(SeeAll(view, CreatesOf(ms)), DestroysOf(ms))
  }

  lemma {:induction false} DrainIsCall(view: Entities, ms: seq<ServerMsg>)
    ensures Settled(ms, [Call(|ms|, |ms|)])
    ensures Drain(view, ms) == SeeAll(view, Handled(ms, [Call(|ms|, |ms|)]))
  {
    hide CreatesOf, DestroysOf, SeeAll;
    var calls := [Call(|ms|, |ms|)];
    assert calls[..0] == [] && ms[0..|ms|] == ms;
    assert Handled(ms, calls) == [] + CreatesOf(ms) + DestroysOf(ms);
    assert [] + CreatesOf(ms) == CreatesOf(ms);
    SeeConcat(view, CreatesOf(ms), DestroysOf(ms));
  }

  /** A batch gives what its messages one by one give if and only if it revives no entity. */
  lemma {:induction false} BatchIff(view: Entities, ms: seq<ServerMsg>)
    ensures Drain(view, ms) == SeeAll(view, ms) <==> forall id :: !Revived(ms, id)
  {
    hide Drain, SeeAll, Handled, LastMake, LastRemove;
    var calls := [Call(|ms|, |ms|)];
    DrainIsCall(view, ms);
    CallsIff(view, ms, calls);
    forall id ensures KeptOrder(ms, calls, id) <==> !Revived(ms, id) {
      LastsApart(ms, id);
    }
  }

  lemma {:induction false} LastsApart(ms: seq<ServerMsg>, id: Eid)
    ensures LastMake(ms, id) >= 0 ==> LastMake(ms, id) != LastRemove(ms, id)
  {
    LastOf(ms, id);
  }

  /** An entity destroyed and created again within one batch is lost. */
  lemma {:induction false} ReusedLost(was: Entity, again: Entity)
    requires was.id == again.id
    ensures var ms := [EntityDestroy(was.id), EntityCreate(again)];
            SeeAll(map[was.id := was], ms) == map[was.id := again] && Drain(map[was.id := was], ms) == map[]
  {
    var d, m := EntityDestroy(was.id), EntityCreate(again);
    var ms := [d, m];
    assert ms[..1] == [d] && [d][..0] == [] && [m][..0] == [];
    assert was.id in Removed(d) && Removed(m) == {};
    assert CreatesOf([d]) == [];
    assert CreatesOf(ms) == CreatesOf([d]) + [m] == [m];
    assert DestroysOf([d]) == [d];
    assert DestroysOf(ms) == DestroysOf([d]) + [] == [d];
    var view := map[was.id := was];
    assert SeeAll(view, []) == view && SeeAll(view, [d]) == map[];
    assert SeeAll(view, [m]) == map[was.id := again];
    assert SeeAll(map[was.id := again], []) == map[was.id := again];
  }

  /**
   An entity created and destroyed between the two exchanges of one call is there for good: its destroy is handled in
   this call, its create only in the next.
   */
  lemma {:induction false} PartedStays(e: Entity)
    ensures var ms := [EntityCreate(e), EntityDestroy(e.id)];
            var calls := [Call(0, 2), Call(2, 2)];
            && Settled(ms, calls)
            && SeeAll(map[], ms) == map[] && SeeAll(map[], Handled(ms, calls)) == map[e.id := e]
  {
    var m, d := EntityCreate(e), EntityDestroy(e.id);
    var ms := [m, d];
    var calls := [Call(0, 2), Call(2, 2)];
    assert ms[..1] == [m] && [m][..0] == [] && [d][..0] == [];
    assert e.id in Removed(d) && Removed(m) == {};
    assert CreatesOf([m]) == [m] && DestroysOf([m]) == [];
    assert CreatesOf(ms) == CreatesOf([m]) + [] == [m];
    assert DestroysOf(ms) == DestroysOf([m]) + [d] == [d];
    var none: Entities := map[];
    assert SeeAll(none, []) == none && none - {e.id} == none;
    assert SeeAll(none, [m]) == none[e.id := e] && SeeAll(none, [d]) == none;
    PartedHandled(ms, m, d);
    assert [d, m][..1] == [d];
  }

  lemma {:induction false} PartedHandled(ms: seq<ServerMsg>, m: ServerMsg, d: ServerMsg)
    requires |ms| == 2 && CreatesOf(ms) == [m] && DestroysOf(ms) == [d]
    ensures Settled(ms, [Call(0, 2), Call(2, 2)])
    ensures Handled(ms, [Call(0, 2), Call(2, 2)]) == [d, m]
  {
    var one, calls := [Call(0, 2)], [Call(0, 2), Call(2, 2)];
    assert calls[..1] == one && one[..0] == [];
    assert ms[0..0] == [] && ms[2..2] == [] && ms[0..2] == ms;
    assert Handled(ms, []) == [];
    assert Handled(ms, one) == [] + [] + [d];
    assert Handled(ms, calls) == [d] + [m] + [];
  }

  /** No create comes after a destroy of the same entity. */
  predicate Unrevived(ms: seq<ServerMsg>) {
    forall i, j {:trigger Removed(ms[i]), ms[j].e} :: 0 <= i < j < |ms| && ms[j].EntityCreate? ==>
      ms[j].e.id !in Removed(ms[i])
  }

  lemma {:induction false} NoneRevived(ms: seq<ServerMsg>, id: Eid)
    requires Unrevived(ms)
    ensures !Revived(ms, id)
  {
    hide LastMake, LastRemove;
    var c, d := LastMake(ms, id), LastRemove(ms, id);
    if c >= 0 && d >= 0 {
      assert ms[c].e.id == id && id in Removed(ms[d]);
      assert !(d < c);
    }
  }

  /**
   When no create comes after a destroy of the same entity, the calls give what the messages give if and only if none
   of them takes the last destroy of an entity and leaves its last create to a later one.
   */
  lemma {:induction false} PartedIff(view: Entities, ms: seq<ServerMsg>, calls: seq<Call>)
    requires Settled(ms, calls) && Unrevived(ms)
    ensures SeeAll(view, Handled(ms, calls)) == SeeAll(view, ms) <==>
              forall id :: LastMake(ms, id) >= 0 && LastRemove(ms, id) >= 0 ==>
                !Parts(calls, LastMake(ms, id), LastRemove(ms, id))
  {
    hide SeeAll, Handled, LastMake, LastRemove, Settled, Parts, Unrevived, KeptOrder;
    CallsIff(view, ms, calls);
    if forall id :: KeptOrder(ms, calls, id) {
      forall id | LastMake(ms, id) >= 0 && LastRemove(ms, id) >= 0
        ensures !Parts(calls, LastMake(ms, id), LastRemove(ms, id))
      {
        PartedAt(ms, calls, id);
      }
    } else {
      var id :| !KeptOrder(ms, calls, id);
      PartedAt(ms, calls, id);
    }
  }

  lemma {:induction false} PartedAt(ms: seq<ServerMsg>, calls: seq<Call>, id: Eid)
    requires Unrevived(ms)
    ensures KeptOrder(ms, calls, id) <==>
              (LastMake(ms, id) >= 0 && LastRemove(ms, id) >= 0 ==>
                !Parts(calls, LastMake(ms, id), LastRemove(ms, id)))
  {
    hide LastMake, LastRemove, Parts, Unrevived;
    NoneRevived(ms, id);
    LastsApart(ms, id);
  }

  /** That is so if each call takes no more destroys than creates, as it would with its exchanges in the other order. */
  lemma {:induction false} DestroysFirst(view: Entities, ms: seq<ServerMsg>, calls: seq<Call>)
    requires Settled(ms, calls) && Unrevived(ms)
    requires forall k :: 0 <= k < |calls| ==> calls[k].destroys <= calls[k].creates
    ensures SeeAll(view, Handled(ms, calls)) == SeeAll(view, ms)
  {
    hide SeeAll, Handled, LastMake, LastRemove, Settled, Unrevived;
    PartedIff(view, ms, calls);
    forall id | LastMake(ms, id) >= 0 && LastRemove(ms, id) >= 0
      ensures !Parts(calls, LastMake(ms, id), LastRemove(ms, id))
    {
      NoneRevived(ms, id);
      LastsApart(ms, id);
    }
  }

  // ---------------------------------------------------------------- replication

  /**
   A client that was sent the world has, once it has handled every event, in whatever order, the server's entities if
   and only if the last event of every entity that it handled is the last one that the server sent.
   */
  lemma {:induction false} OrderReplicatedIff(steps: seq<Step>, w: World, c: ClientId, hs: seq<ServerMsg>)
    requires Run(Init(), steps, w) && c in w.clients && c in w.links
    requires WorldSentBefore(w.links[c].outbox, |w.links[c].outbox|) && SameEvents(hs, w.links[c].outbox)
    ensures SeeAll(map[], hs) == w.entities <==> forall id :: Last(hs, id) == Last(w.links[c].outbox, id)
  {
    hide SeeAll, Last, SameEvents, WorldSentBefore;
    OutboxGives(steps, w, c);
    OrderIff(map[], hs, w.links[c].outbox);
  }

  lemma {:induction false} OutboxGives(steps: seq<Step>, w: World, c: ClientId)
    requires Run(Init(), steps, w) && c in w.clients && c in w.links
    requires WorldSentBefore(w.links[c].outbox, |w.links[c].outbox|)
    ensures SeeAll(map[], w.links[c].outbox) == w.entities
  {
    hide Run, SeeAll, WorldSentBefore, Ordered;
    InitInv();
    RunInv(Init(), steps, w);
    assert InStep(w.links[c], w.entities);
  }

  /**
   So a client that handles its messages in calls, however many have come in at each of their exchanges, has the
   server's entities once nothing waits if and only if no entity's last two events change places.
   */
  lemma {:induction false} CallsReplicatedIff(steps: seq<Step>, w: World, c: ClientId, calls: seq<Call>)
    requires Run(Init(), steps, w) && c in w.clients && c in w.links
    requires WorldSentBefore(w.links[c].outbox, |w.links[c].outbox|) && Settled(w.links[c].outbox, calls)
    ensures SeeAll(map[], Handled(w.links[c].outbox, calls)) == w.entities
            <==> forall id :: KeptOrder(w.links[c].outbox, calls, id)
  {
    hide SeeAll, Handled, KeptOrder, Settled, WorldSentBefore;
    OutboxGives(steps, w, c);
    CallsIff(map[], w.links[c].outbox, calls);
  }

  // ---------------------------------------------------------------- runs in which no destroyed entity comes back

  /** The ids that have been destroyed after a step. */
  function GoneAfter(gone: set<Eid>, s: Step): (r: set<Eid>) {
    if s.Destroyed? then gone + {s.id} else gone
  }

  /** The server never handles a create of an entity after a destroy of it. */
  predicate NoneBack(steps: seq<Step>, gone: set<Eid>) {
    steps == [] ||
    ((steps[0].Created? ==> steps[0].e.id !in gone) && NoneBack(steps[1..], GoneAfter(gone, steps[0])))
  }

  /** What was destroyed is not there, and does not come back. */
  predicate OutboxOk(ms: seq<ServerMsg>, entities: Entities, gone: set<Eid>) {
    && Unrevived(ms)
    && forall i :: 0 <= i < |ms| ==> Removed(ms[i]) <= gone + {0} && Removed(ms[i]) !! entities.Keys
  }

  predicate WorldOk(w: World, gone: set<Eid>) {
    && 0 !in w.entities
    && (forall c :: c in w.links ==> OutboxOk(w.links[c].outbox, w.entities, gone))
    && (forall i :: 0 <= i < |w.recent| ==> w.recent[i].Chat?)
  }

  /** Messages that take nothing away, and create only what there is. */
  lemma {:induction false} MoreOk(ms: seq<ServerMsg>, more: seq<ServerMsg>, entities: Entities, gone: set<Eid>)
    requires OutboxOk(ms, entities, gone)
    requires forall i :: 0 <= i < |more| ==> Removed(more[i]) == {}
    requires forall i :: 0 <= i < |more| && more[i].EntityCreate? ==> more[i].e.id in entities
    ensures OutboxOk(ms + more, entities, gone)
  {
    hide Removed;
    var all := ms + more;
    forall i, j | 0 <= i < j < |all| && all[j].EntityCreate? ensures all[j].e.id !in Removed(all[i]) {
      if j >= |ms| && i < |ms| {
        assert all[i] == ms[i] && all[j] == more[j - |ms|];
      }
    }
  }

  /** One message more: a create of what there is, a destroy of what is not there any more, or neither. */
  predicate Fits(m: ServerMsg, entities: Entities, gone: set<Eid>) {
    && (m.EntityCreate? ==> m.e.id in entities)
    && Removed(m) <= gone + {0} && Removed(m) !! entities.Keys
  }

  lemma {:induction false} OneMoreOk(ms: seq<ServerMsg>, m: ServerMsg, entities: Entities, gone: set<Eid>)
    requires OutboxOk(ms, entities, gone) && Fits(m, entities, gone)
    ensures OutboxOk(ms + [m], entities, gone)
  {
    hide Removed;
  }

  lemma {:induction false} LessOk(ms: seq<ServerMsg>, entities: Entities, gone: set<Eid>, id: Eid)
    requires OutboxOk(ms, entities, gone)
    ensures OutboxOk(ms, entities - {id}, gone + {id})
  {
    hide Removed, Unrevived;
  }

  lemma {:induction false} MadeOk(ms: seq<ServerMsg>, entities: Entities, gone: set<Eid>, e: Entity)
    requires OutboxOk(ms, entities, gone) && e.id !in gone && e.id != 0
    ensures OutboxOk(ms, entities[e.id := e], gone)
  {
    hide Removed, Unrevived;
  }

  lemma {:induction false} LinkWorldOk(w: World, gone: set<Eid>, c: ClientId, l: Link)
    requires WorldOk(w, gone) && OutboxOk(l.outbox, w.entities, gone)
    ensures WorldOk(w.(links := w.links[c := l]), gone)
  {
    hide OutboxOk;
  }

  lemma {:induction false} BroadcastOk(w: World, gone: set<Eid>, m: ServerMsg)
    requires WorldOk(w, gone) && Fits(m, w.entities, gone)
    ensures WorldOk(Broadcast(w, m), gone)
  {
    hide OutboxOk, Fits;
    forall c | c in w.links ensures OutboxOk(Queue(w.links[c], [m]).outbox, w.entities, gone) {
      OneMoreOk(w.links[c].outbox, m, w.entities, gone);
    }
  }

  lemma {:induction false} CreatedWorldOk(w: World, gone: set<Eid>, e: Entity)
    requires WorldOk(w, gone) && e.id != 0 && e.id !in gone
    ensures WorldOk(OnCreated(w, e), gone)
  {
    hide OutboxOk;
    var v := w.(entities := w.entities[e.id := e]);
    forall c | c in w.links ensures OutboxOk(w.links[c].outbox, v.entities, gone) {
      MadeOk(w.links[c].outbox, w.entities, gone, e);
    }
    BroadcastOk(v, gone, EntityCreate(e));
  }

  lemma {:induction false} DestroyedWorldOk(w: World, gone: set<Eid>, id: Eid)
    requires WorldOk(w, gone)
    ensures WorldOk(OnDestroyed(w, id), gone + {id})
  {
    hide OutboxOk;
    var v := w.(entities := w.entities - {id});
    forall c | c in w.links ensures OutboxOk(w.links[c].outbox, v.entities, gone + {id}) {
      LessOk(w.links[c].outbox, w.entities, gone, id);
    }
    BroadcastOk(v, gone + {id}, EntityDestroy(id));
  }

  lemma {:induction false} DisconnectWorldOk(w: World, gone: set<Eid>, c: ClientId)
    requires WorldOk(w, gone) && c in w.clients && c in w.links
    ensures WorldOk(Disconnect(w, c), gone)
  {
    hide OutboxOk;
    BroadcastOk(w.(clients := w.clients - {c}), gone, ClientLeft(0));
  }

  lemma {:induction false} WorldFits(w: World, order: seq<Eid>)
    requires Walk(w.entities, order) && forall i :: 0 <= i < |w.recent| ==> w.recent[i].Chat?
    ensures var ms := [Authenticated] + SendWorld(w, order);
            forall i :: 0 <= i < |ms| ==>
              Removed(ms[i]) == {} && (ms[i].EntityCreate? ==> ms[i].e in w.entities.Values)
  {
    hide Creates;
    var ms := [Authenticated] + SendWorld(w, order);
    forall i | 0 <= i < |ms| ensures Removed(ms[i]) == {} && (ms[i].EntityCreate? ==> ms[i].e in w.entities.Values) {
      if 2 <= i < 2 + |order| {
        CreatesAt(w.entities, order, i - 2);
        assert ms[i] == Creates(w.entities, order)[i - 2];
      }
    }
  }

  lemma {:induction false} ProcessWorldOk(w: World, gone: set<Eid>, c: ClientId, order: seq<Eid>, newId: Eid)
    requires Inv(w) && WorldOk(w, gone) && Enabled(w, ServerReads(c, order, newId))
    ensures WorldOk(Process(w, c, order, newId), gone)
  {
    hide OutboxOk, Inv, SendWorld;
    var l := w.links[c].(inbox := w.links[c].inbox[1..]);
    LinkWorldOk(w, gone, c, l);
    var popped := w.(links := w.links[c := l]);
    match w.links[c].inbox[0] {
      case Login(true) =>
        var ms := [Authenticated] + SendWorld(w, order);
        WorldFits(w, order);
        KeyedValues(w);
        MoreOk(l.outbox, ms, w.entities, gone);
        LinkWorldOk(popped, gone, c, Queue(l.(loggedIn := true), ms));
        assert popped.(links := popped.links[c := Queue(l.(loggedIn := true), ms)]) == Process(w, c, order, newId);
      case Login(false) => DisconnectWorldOk(popped, gone, c);
      case Join =>
        if l.loggedIn {
          OneMoreOk(l.outbox, ClientIdIs(newId), w.entities, gone);
          LinkWorldOk(popped, gone, c, Queue(l, [ClientIdIs(newId)]));
          BroadcastOk(popped.(links := popped.links[c := Queue(l, [ClientIdIs(newId)])]), gone,
                      ClientJoined(newId));
        }
      case Ready => LinkWorldOk(popped, gone, c, l.(ready := true));
      case ChatFrom(t) => BroadcastOk(popped.(recent := Remember(w.recent, Chat(t))), gone, Chat(t));
      case Command =>
    }
  }

  /** An entity is filed under its own id. */
  lemma {:induction false} KeyedValues(w: World)
    requires Inv(w)
    ensures forall e :: e in w.entities.Values ==> e.id in w.entities
  {
    hide LinkOk, InStep;
  }

  lemma {:induction false} TickWorldOk(w: World, gone: set<Eid>)
    requires WorldOk(w, gone)
    ensures WorldOk(Tick(w), gone)
  {
    hide OutboxOk;
    var m := GameStateUpdate(w.stateId + 1);
    forall c | c in w.links ensures OutboxOk(Queue(w.links[c], [m]).outbox, w.entities, gone) {
      OneMoreOk(w.links[c].outbox, m, w.entities, gone);
    }
  }

  lemma {:induction false} StepWorldOk(w: World, gone: set<Eid>, s: Step)
    requires Inv(w) && WorldOk(w, gone) && Enabled(w, s) && (s.Created? ==> s.e.id !in gone)
    ensures WorldOk(Apply(w, s), GoneAfter(gone, s))
  {
    hide Inv, OutboxOk, Process, OnCreated, OnDestroyed, Disconnect, Tick;
    match s {
      case Accept(c) => EmptyOk(w.entities, gone);
      case Created(e) => CreatedWorldOk(w, gone, e);
      case Destroyed(id) => DestroyedWorldOk(w, gone, id);
      case ServerReads(c, order, newId) => ProcessWorldOk(w, gone, c, order, newId);
      case Drop(c) => DisconnectWorldOk(w, gone, c);
      case ClientReads(c) =>
      case UserSends(c, m) =>
      case SimulationTick => TickWorldOk(w, gone);
    }
  }

  lemma {:induction false} EmptyOk(entities: Entities, gone: set<Eid>)
    ensures OutboxOk([], entities, gone)
  {
  }

  lemma {:induction false} RunWorldOk(w: World, gone: set<Eid>, steps: seq<Step>, v: World) returns (after: set<Eid>)
    requires Inv(w) && WorldOk(w, gone) && Run(w, steps, v) && NoneBack(steps, gone)
    ensures WorldOk(v, after)
    decreases |steps|
  {
    hide Inv, WorldOk, Apply, Enabled, GoneAfter;
    after := gone;
    if steps != [] {
      StepInv(w, steps[0]);
      StepWorldOk(w, gone, steps[0]);
      after := RunWorldOk(Apply(w, steps[0]), GoneAfter(gone, steps[0]), steps[1..], v);
    }
  }

  lemma {:induction false} OutboxUnrevived(steps: seq<Step>, w: World, c: ClientId)
    requires Run(Init(), steps, w) && NoneBack(steps, {}) && c in w.links
    ensures Unrevived(w.links[c].outbox)
  {
    hide Run, NoneBack, Unrevived;
    InitInv();
    InitOk();
    var gone := RunWorldOk(Init(), {}, steps, w);
    assert OutboxOk(w.links[c].outbox, w.entities, gone);
  }

  lemma {:induction false} InitOk()
    ensures WorldOk(Init(), {})
  {
  }

  /**
   In a run in which the server never handles a create of an entity after a destroy of it, the client has the server's
   entities if and only if none of its calls takes the last destroy of an entity and leaves its last create to a later
   one; so it has them if each call takes no more destroys than creates.
   */
  lemma {:induction false} PartedReplicatedIff(steps: seq<Step>, w: World, c: ClientId, calls: seq<Call>)
    requires Run(Init(), steps, w) && NoneBack(steps, {}) && c in w.clients && c in w.links
    requires WorldSentBefore(w.links[c].outbox, |w.links[c].outbox|) && Settled(w.links[c].outbox, calls)
    ensures var ms := w.links[c].outbox;
            SeeAll(map[], Handled(ms, calls)) == w.entities <==>
              forall id :: LastMake(ms, id) >= 0 && LastRemove(ms, id) >= 0 ==>
                !Parts(calls, LastMake(ms, id), LastRemove(ms, id))
    ensures (forall k :: 0 <= k < |calls| ==> calls[k].destroys <= calls[k].creates) ==>
              SeeAll(map[], Handled(w.links[c].outbox, calls)) == w.entities
  {
    hide Run, NoneBack, SeeAll, Handled, Settled, WorldSentBefore, LastMake, LastRemove, Parts, Unrevived;
    OutboxGives(steps, w, c);
    OutboxUnrevived(steps, w, c);
    PartedIff(map[], w.links[c].outbox, calls);
    if forall k :: 0 <= k < |calls| ==> calls[k].destroys <= calls[k].creates {
      DestroysFirst(map[], w.links[c].outbox, calls);
    }
  }

  // ---------------------------------------------------------------- runs in which it goes wrong

  const GREETED: seq<ServerMsg> := [Authenticated, GREETING, WorldSent(map[])]

  /** One client that has logged in and been sent the empty world. */
  function LoggedIn(outbox: seq<ServerMsg>, entities: Entities): (w: World) {
    World(entities, {0}, map[0 := Link(outbox, 0, map[], [], true, false)], [], 0)
  }

  const LOGIN: seq<Step> := [Accept(0), UserSends(0, Login(true)), ServerReads(0, [], 0)]

  lemma {:induction false} LoginRun(steps: seq<Step>, w: World)
    requires Run(LoggedIn(GREETED, map[]), steps, w)
    ensures Run(Init(), LOGIN + steps, w)
  {
    var all := LOGIN + steps;
    assert all[1..][1..][1..] == steps;
    assert all[0] == LOGIN[0] && all[1..][0] == LOGIN[1] && all[1..][1..][0] == LOGIN[2];
    LoginWorld();
  }

  lemma {:induction false} LoginWorld()
    ensures Enabled(Init(), LOGIN[0]) && Enabled(Apply(Init(), LOGIN[0]), LOGIN[1])
    ensures var w := Apply(Apply(Init(), LOGIN[0]), LOGIN[1]);
            Enabled(w, LOGIN[2]) && Apply(w, LOGIN[2]) == LoggedIn(GREETED, map[])
  {
    var w := Apply(Apply(Init(), LOGIN[0]), LOGIN[1]);
    var l0 := Link([], 0, map[], [], false, false);
    var l1 := l0.(inbox := [] + [Login(true)]);
    assert Apply(Init(), LOGIN[0]) == World(map[], {} + {0}, map[0 := l0], [], 0);
    assert w == World(map[], {0}, map[0 := l1], [], 0);
    assert l1.inbox[1..] == [];
    assert Walk(w.entities, []) && [] + ([Authenticated] + SendWorld(w, [])) == GREETED;
    var l2 := Link(GREETED, 0, map[], [], true, false);
    assert Process(w, 0, [], 0).links == map[0 := l1][0 := l2] == map[0 := l2];
  }

  lemma {:induction false} CreatedRun(outbox: seq<ServerMsg>, es: Entities, e: Entity, steps: seq<Step>, w: World)
    requires e.id != 0 && Run(LoggedIn(outbox + [EntityCreate(e)], es[e.id := e]), steps, w)
    ensures Run(LoggedIn(outbox, es), [Created(e)] + steps, w)
  {
    assert ([Created(e)] + steps)[1..] == steps;
    assert OnCreated(LoggedIn(outbox, es), e) == LoggedIn(outbox + [EntityCreate(e)], es[e.id := e]);
  }

  lemma {:induction false} DestroyedRun(outbox: seq<ServerMsg>, es: Entities, id: Eid, steps: seq<Step>, w: World)
    requires id != 0 && Run(LoggedIn(outbox + [EntityDestroy(id)], es - {id}), steps, w)
    ensures Run(LoggedIn(outbox, es), [Destroyed(id)] + steps, w)
  {
    assert ([Destroyed(id)] + steps)[1..] == steps;
    assert OnDestroyed(LoggedIn(outbox, es), id) == LoggedIn(outbox + [EntityDestroy(id)], es - {id});
  }

  /**
   A client logs in, an entity is made and destroyed, and both messages come in between the two exchanges of one call:
   the client keeps an entity that the server does not have.
   */
  lemma {:induction false} PartedReached(e: Entity) returns (w: World, steps: seq<Step>, calls: seq<Call>)
    requires e.id != 0
    ensures Run(Init(), steps, w) && NoneBack(steps, {}) && 0 in w.clients && 0 in w.links
    ensures WorldSentBefore(w.links[0].outbox, |w.links[0].outbox|) && Settled(w.links[0].outbox, calls)
    ensures SeeAll(map[], Handled(w.links[0].outbox, calls)) != w.entities
  {
    hide Run, SeeAll, Handled;
    var ms := GREETED + [EntityCreate(e)] + [EntityDestroy(e.id)];
    w := LoggedIn(ms, map[e.id := e] - {e.id});
    RunStays(w);
    DestroyedRun(GREETED + [EntityCreate(e)], map[e.id := e], e.id, [], w);
    CreatedRun(GREETED, map[], e, [Destroyed(e.id)] + [], w);
    var tail := [Created(e)] + ([Destroyed(e.id)] + []);
    LoginRun(tail, w);
    steps := LOGIN + tail;
    BackOnlyAfter(tail, e);
    calls := [Call(3, 5), Call(5, 5)];
    assert ms[2] == WorldSent(map[]);
    CallsReplicatedIff(steps, w, 0, calls);
    LastsAt(GREETED, EntityCreate(e), EntityDestroy(e.id), e.id);
    assert Parts(calls, 3, 4) by {
      assert 4 < calls[0].destroys && calls[0].creates <= 3;
    }
    assert !KeptOrder(ms, calls, e.id);
  }

  lemma {:induction false} RunStays(w: World)
    ensures Run(w, [], w)
  {
  }

  lemma {:induction false} BackOnlyAfter(tail: seq<Step>, e: Entity)
    requires tail == [Created(e)] + ([Destroyed(e.id)] + [])
    ensures NoneBack(LOGIN + tail, {})
  {
    var all := LOGIN + tail;
    assert all[1..][1..][1..] == tail && tail[1..] == [Destroyed(e.id)] && tail[1..][1..] == [];
    assert NoneBack(tail, {});
    assert all[0] == LOGIN[0] && all[1..][0] == LOGIN[1] && all[1..][1..][0] == LOGIN[2];
  }

  /** Where the last two messages are, if they are about the entity. */
  lemma {:induction false} LastsAt(front: seq<ServerMsg>, m: ServerMsg, d: ServerMsg, id: Eid)
    requires Makes(m, id) && id in Removed(d)
    ensures LastMake(front + [m] + [d], id) == |front| && LastRemove(front + [m] + [d], id) == |front| + 1
    ensures LastMake(front + [d] + [m], id) == |front| + 1 && LastRemove(front + [d] + [m], id) == |front|
  {
    assert (front + [m] + [d])[..|front| + 1] == front + [m] && (front + [d] + [m])[..|front| + 1] == front + [d];
  }

  /**
   The server has the same two queues, and may handle a destroy before the create of the same entity. The client that
   takes both messages in one call does not get the entity that the server has.
   */
  lemma {:induction false} SwappedReached(e: Entity) returns (w: World, steps: seq<Step>, calls: seq<Call>)
    requires e.id != 0
    ensures Run(Init(), steps, w) && 0 in w.clients && 0 in w.links && |calls| == 1
    ensures WorldSentBefore(w.links[0].outbox, |w.links[0].outbox|) && Settled(w.links[0].outbox, calls)
    ensures w.entities == map[e.id := e] && SeeAll(map[], Handled(w.links[0].outbox, calls)) != w.entities
  {
    hide Run, SeeAll, Handled;
    var none: Entities := map[];
    var ms := GREETED + [EntityDestroy(e.id)] + [EntityCreate(e)];
    assert none - {e.id} == none;
    w := LoggedIn(ms, none[e.id := e]);
    RunStays(w);
    CreatedRun(GREETED + [EntityDestroy(e.id)], none, e, [], w);
    DestroyedRun(GREETED, none, e.id, [Created(e)] + [], w);
    steps := LOGIN + ([Destroyed(e.id)] + ([Created(e)] + []));
    LoginRun([Destroyed(e.id)] + ([Created(e)] + []), w);
    calls := [Call(5, 5)];
    assert ms[2] == WorldSent(map[]);
    CallsReplicatedIff(steps, w, 0, calls);
    LastsAt(GREETED, EntityCreate(e), EntityDestroy(e.id), e.id);
    assert !Parts(calls, 4, 3);
    assert !KeptOrder(ms, calls, e.id);
  }
}
