/**
 The event double buffer: producers load the write pointer and then emplace under that queue's lock;
 the consumer exchanges the two pointers, locks the queue it took and drains it.
 */
module EventQueues {

  datatype Event = Event(entityId: nat, data: nat)

  /** An emplaced event, with the number of `ProcessEventQueue` calls begun and of events emplaced by then. */
  datatype Cell = Cell(event: Event, stamp: nat, serial: nat)

  /** Where the consumer is: outside the call, between exchange and lock, or holding the lock. */
  datatype Phase = Idle | Swapped | Draining

  /** A producer that has loaded the write pointer but not emplaced yet. */
  datatype Loaded = Loaded(event: Event, target: bool)

  datatype State = State(
    q0: seq<Cell>, q1: seq<Cell>, write: bool, phase: Phase, producers: map<nat, Loaded>,
    begun: nat, log: seq<Cell>, handled: seq<Cell>, calls: seq<nat>)

  datatype Step = Load(p: nat, e: Event) | Emplace(p: nat) | Exchange | Lock | Handle | Done

  function Get(s: State, which: bool): (q: seq<Cell>) {
    if which then s.q1 else s.q0
  }

  function Put(s: State, which: bool, q: seq<Cell>): (r: State)
    ensures Get(r, which) == q && Get(r, !which) == Get(s, !which)
    ensures r == s.(q0 := r.q0, q1 := r.q1)
  {
    if which then s.(q1 := q) else s.(q0 := q)
  }

  function Write(s: State): (q: seq<Cell>) {
    Get(s, s.write)
  }

  function Read(s: State): (q: seq<Cell>) {
    Get(s, !s.write)
  }

  function Init(): (s: State) {
    State([], [], true, Idle, map[], 0, [], [], [])
  }

  /** A queue's lock is held by the consumer while it drains that queue. */
  predicate Enabled(s: State, st: Step) {
    match st
    case Load(p, _) => p !in s.producers
    case Emplace(p) => p in s.producers && (s.phase.Draining? ==> s.producers[p].target == s.write)
    case Exchange => s.phase.Idle?
    case Lock => s.phase.Swapped?
    case Handle => s.phase.Draining? && Read(s) != []
    case Done => s.phase.Draining? && Read(s) == []
  }

  function Apply(s: State, st: Step): (r: State)
    requires Enabled(s, st)
  {
    match st
    case Load(p, e) => s.(producers := s.producers[p := Loaded(e, s.write)])
    case Emplace(p) =>
      var c, t := Cell(s.producers[p].event, s.begun, |s.log|), s.producers[p].target;
      Put(s, t, Get(s, t) + [c]).(producers := s.producers - {p}, log := s.log + [c])
    case Exchange => s.(write := !s.write, phase := Swapped, begun := s.begun + 1)
    case Lock => s.(phase := Draining)
    case Handle =>
      var q := Read(s);
      Put(s, !s.write, q[1..]).(handled := s.handled + [q[0]], calls := s.calls + [s.begun])
    case Done => s.(phase := Idle)
  }

  predicate Runs(s: State, steps: seq<Step>)
    decreases |steps|
  {
    steps == [] || (Enabled(s, steps[0]) && Runs(Apply(s, steps[0]), steps[1..]))
  }

  function Execute(s: State, steps: seq<Step>): (r: State)
    requires Runs(s, steps)
    decreases |steps|
  {
    if steps == [] then s else Execute(Apply(s, steps[0]), steps[1..])
  }

  // ---------------------------------------------------------------- any interleaving

  predicate Since(q: seq<Cell>, low: int, high: int) {
    forall i :: 0 <= i < |q| ==> low <= q[i].stamp <= high
  }

  function Waiting(s: State): (m: multiset<Cell>) {
    multiset(s.q0) + multiset(s.q1)
  }

  /** Every emplaced event is in exactly one place. */
  predicate Conserved(s: State) {
    multiset(s.log) == multiset(s.handled) + Waiting(s)
  }

  /** An event is handled no later than in the second call begun after it was emplaced. */
  predicate InTime(s: State) {
    && |s.calls| == |s.handled|
    && forall i :: 0 <= i < |s.calls| ==> s.handled[i].stamp <= s.calls[i] <= s.handled[i].stamp + 2
  }

  predicate Inv(s: State) {
    && Conserved(s)
    && InTime(s)
    && Since(Write(s), s.begun - 1, s.begun)
    && Since(Read(s), if s.phase.Idle? then s.begun else s.begun - 2, s.begun)
  }

  lemma {:induction false} PutWaiting(s: State, which: bool, q: seq<Cell>)
    ensures Waiting(Put(s, which, q)) == multiset(Get(s, !which)) + multiset(q)
    ensures Waiting(s) == multiset(Get(s, !which)) + multiset(Get(s, which))
  {
  }

  lemma {:induction false} EmplaceConserves(s: State, p: nat)
    requires Conserved(s) && Enabled(s, Emplace(p))
    ensures Conserved(Apply(s, Emplace(p)))
  {
    hide Put, Get;
    var c, t := Cell(s.producers[p].event, s.begun, |s.log|), s.producers[p].target;
    var r := Apply(s, Emplace(p));
    PutWaiting(s, t, Get(s, t) + [c]);
    assert Waiting(r) == Waiting(s) + multiset{c};
    assert multiset(r.log) == multiset(s.log) + multiset{c};
  }

  lemma {:induction false} HandleConserves(s: State)
    requires Conserved(s) && Enabled(s, Handle)
    ensures Conserved(Apply(s, Handle))
  {
    hide Put, Get;
    var q, r := Read(s), Apply(s, Handle);
    PutWaiting(s, !s.write, q[1..]);
    assert q == [q[0]] + q[1..];
    assert Waiting(s) == Waiting(r) + multiset{q[0]};
    assert multiset(r.handled) == multiset(s.handled) + multiset{q[0]};
  }

  lemma {:induction false} StepConserves(s: State, st: Step)
    requires Conserved(s) && Enabled(s, st)
    ensures Conserved(Apply(s, st))
  {
    if st.Emplace? {
      EmplaceConserves(s, st.p);
    } else if st.Handle? {
      HandleConserves(s);
    }
  }

  lemma {:induction false} StepInv(s: State, st: Step)
    requires Inv(s) && Enabled(s, st)
    ensures Inv(Apply(s, st))
  {
    hide Conserved;
    StepConserves(s, st);
    if st.Emplace? {
      assert s.producers[st.p].target == s.write || s.producers[st.p].target == !s.write;
    }
  }

  /** In every interleaving, each emplaced event is handled or queued, once, and in time. */
  lemma {:induction false} RunInv(s: State, steps: seq<Step>)
    requires Inv(s) && Runs(s, steps)
    ensures Inv(Execute(s, steps))
    decreases |steps|
  {
    hide Inv, Apply, Enabled;
    if steps != [] {
      StepInv(s, steps[0]);
      RunInv(Apply(s, steps[0]), steps[1..]);
    }
  }

  lemma {:induction false} InitInv()
    ensures Inv(Init())
  {
  }

  /** Between calls, an event that two calls have been begun since is no longer waiting. */
  lemma {:induction false} HandledByThen(steps: seq<Step>, i: nat)
    requires Runs(Init(), steps)
    requires var s := Execute(Init(), steps); s.phase.Idle? && i < |s.log| && s.log[i].stamp + 2 <= s.begun
    ensures var s := Execute(Init(), steps);
            multiset(s.handled)[s.log[i]] == multiset(s.log)[s.log[i]] > 0
  {
    hide Execute, Runs;
    InitInv();
    RunInv(Init(), steps);
    var s := Execute(Init(), steps);
    NotWaiting(s, s.log[i]);
    assert s.log[i] in s.log;
  }

  lemma {:induction false} NotWaiting(s: State, c: Cell)
    requires Inv(s) && s.phase.Idle? && c.stamp + 2 <= s.begun
    ensures multiset(s.q0)[c] == 0 && multiset(s.q1)[c] == 0
    ensures multiset(s.log)[c] == multiset(s.handled)[c]
  {
    assert Read(s) == s.q0 || Read(s) == s.q1;
    forall i | 0 <= i < |Write(s)| ensures Write(s)[i] != c {
    }
    forall i | 0 <= i < |Read(s)| ensures Read(s)[i] != c {
    }
  }

  /**
   Without atomicity even one producer's events can be handled out of order: it loads the pointer for its
   first event, a whole call passes, it emplaces into the queue just drained, and queues its second event.
   The second is handled in the next call, the first in the one after.
   */
  lemma {:induction false} ProducerReordered(a: Event, b: Event)
    ensures var steps := [Load(0, a), Exchange, Lock, Done, Emplace(0), Load(0, b), Emplace(0),
                          Exchange, Lock, Handle, Done, Exchange, Lock, Handle, Done];
            && Runs(Init(), steps)
            && Execute(Init(), steps).log == [Cell(a, 1, 0), Cell(b, 1, 1)]
            && Execute(Init(), steps).handled == [Cell(b, 1, 1), Cell(a, 1, 0)]
            && Execute(Init(), steps).calls == [2, 3]
  {
    hide Runs, Execute, Enabled, Apply;
    var middle := State([Cell(b, 1, 1)], [Cell(a, 1, 0)], true, Draining, map[], 2,
                        [Cell(a, 1, 0), Cell(b, 1, 1)], [], []);
    var rest := [Handle, Done, Exchange] + ([Lock, Handle, Done] + []);
    SecondFirst(a, b, middle);
    BothQueued(a, b, middle, rest);
    assert [Load(0, a), Exchange, Lock] + ([Done, Emplace(0), Load(0, b)] + ([Emplace(0), Exchange, Lock] + rest))
           == [Load(0, a), Exchange, Lock, Done, Emplace(0), Load(0, b), Emplace(0),
               Exchange, Lock, Handle, Done, Exchange, Lock, Handle, Done];
  }

  lemma {:induction false} BothQueued(a: Event, b: Event, s3: State, rest: seq<Step>)
    requires s3 == State([Cell(b, 1, 1)], [Cell(a, 1, 0)], true, Draining, map[], 2,
                         [Cell(a, 1, 0), Cell(b, 1, 1)], [], [])
    requires Runs(s3, rest)
    ensures var steps := [Load(0, a), Exchange, Lock] +
                         ([Done, Emplace(0), Load(0, b)] + ([Emplace(0), Exchange, Lock] + rest));
            Runs(Init(), steps) && Execute(Init(), steps) == Execute(s3, rest)
  {
    hide Runs, Execute;
    var s0 := Init();
    var s1 := Apply(Apply(Apply(s0, Load(0, a)), Exchange), Lock);
    assert s1 == State([], [], false, Draining, map[0 := Loaded(a, true)], 1, [], [], []);
    var s2 := Apply(Apply(Apply(s1, Done), Emplace(0)), Load(0, b));
    assert s2 == State([], [Cell(a, 1, 0)], false, Idle, map[0 := Loaded(b, false)], 1, [Cell(a, 1, 0)], [], []);
    assert s3 == Apply(Apply(Apply(s2, Emplace(0)), Exchange), Lock);
    ThreeSteps(s2, Emplace(0), Exchange, Lock, rest);
    ThreeSteps(s1, Done, Emplace(0), Load(0, b), [Emplace(0), Exchange, Lock] + rest);
    ThreeSteps(s0, Load(0, a), Exchange, Lock, [Done, Emplace(0), Load(0, b)] + ([Emplace(0), Exchange, Lock] + rest));
  }

  lemma {:induction false} SecondFirst(a: Event, b: Event, s3: State)
    requires s3 == State([Cell(b, 1, 1)], [Cell(a, 1, 0)], true, Draining, map[], 2,
                         [Cell(a, 1, 0), Cell(b, 1, 1)], [], [])
    ensures var steps := [Handle, Done, Exchange] + ([Lock, Handle, Done] + []);
            && Runs(s3, steps)
            && Execute(s3, steps).log == [Cell(a, 1, 0), Cell(b, 1, 1)]
            && Execute(s3, steps).handled == [Cell(b, 1, 1), Cell(a, 1, 0)]
            && Execute(s3, steps).calls == [2, 3]
  {
    hide Runs, Execute;
    var s4 := Apply(Apply(Apply(s3, Handle), Done), Exchange);
    assert s4 == State([], [Cell(a, 1, 0)], false, Swapped, map[], 3, s3.log, [Cell(b, 1, 1)], [2]);
    var s5 := Apply(Apply(Apply(s4, Lock), Handle), Done);
    NoSteps(s5);
    ThreeSteps(s4, Lock, Handle, Done, []);
    ThreeSteps(s3, Handle, Done, Exchange, [Lock, Handle, Done] + []);
  }

  // ---------------------------------------------------------------- exactly when order is kept

  /** The events in the order in which they have been or will be handled, if nothing more comes in. */
  function Order(s: State): (q: seq<Cell>) {
    if s.phase.Idle? then s.handled + Write(s) + Read(s) else s.handled + Read(s) + Write(s)
  }

  /**
   An emplace overtakes if its target is the queue to be handled first while the other one holds something:
   between calls the current write queue, and from exchange to lock the queue that was taken.
   */
  predicate Overtakes(s: State, st: Step)
    requires Enabled(s, st)
  {
    st.Emplace? &&
    var target := s.producers[st.p].target;
    if s.phase.Idle? then target == s.write && Read(s) != [] else target != s.write && Write(s) != []
  }

  predicate Orderly(s: State, steps: seq<Step>)
    requires Runs(s, steps)
    decreases |steps|
  {
    steps == [] || (!Overtakes(s, steps[0]) && Orderly(Apply(s, steps[0]), steps[1..]))
  }

  function Insert(q: seq<Cell>, k: nat, c: Cell): (r: seq<Cell>)
    requires k <= |q|
  {
    q[..k] + [c] + q[k..]
  }

  /** Where an emplaced event goes in the order. */
  function Place(s: State, p: nat): (k: nat)
    requires Enabled(s, Emplace(p))
    ensures k <= |Order(s)|
  {
    if Overtakes(s, Emplace(p)) then |s.handled| + |if s.phase.Idle? then Write(s) else Read(s)| else |Order(s)|
  }

  /** The consumer keeps the order; an emplace inserts, at the end exactly if it does not overtake. */
  lemma {:induction false} StepOrders(s: State, st: Step)
    requires Enabled(s, st)
    ensures st.Emplace? ==>
              && Order(Apply(s, st)) == Insert(Order(s), Place(s, st.p), Apply(s, st).log[|s.log|])
              && (Place(s, st.p) < |Order(s)| <==> Overtakes(s, st))
    ensures !st.Emplace? ==> Order(Apply(s, st)) == Order(s)
  {
    if st.Emplace? {
      EmplaceOrders(s, st.p);
    } else if st.Handle? {
      assert s.handled + Read(s) == (s.handled + [Read(s)[0]]) + Read(s)[1..];
    } else if st.Done? {
      assert s.handled + [] + Write(s) == s.handled + Write(s) + [];
    }
  }

  lemma {:induction false} EmplaceOrders(s: State, p: nat)
    requires Enabled(s, Emplace(p))
    ensures var r := Apply(s, Emplace(p));
            && Order(r) == Insert(Order(s), Place(s, p), r.log[|s.log|])
            && (Place(s, p) < |Order(s)| <==> Overtakes(s, Emplace(p)))
  {
    hide Insert;
    var c, target := Cell(s.producers[p].event, s.begun, |s.log|), s.producers[p].target;
    var first, second := if s.phase.Idle? then Write(s) else Read(s), if s.phase.Idle? then Read(s) else Write(s);
    assert Order(s) == s.handled + first + second;
    Inserted(s.handled, first, second, c);
    if second == [] {
      assert first + [c] + second == first + (second + [c]);
    }
  }

  lemma {:induction false} Inserted(a: seq<Cell>, first: seq<Cell>, second: seq<Cell>, c: Cell)
    ensures Insert(a + first + second, |a| + |first|, c) == a + (first + [c]) + second
    ensures Insert(a + first + second, |a + first + second|, c) == a + first + (second + [c])
  {
  }

  predicate Inverted(q: seq<Cell>) {
    exists i, j :: 0 <= i < j < |q| && q[i].serial > q[j].serial
  }

  /** Serial numbers are the places in the log. */
  predicate Numbered(s: State) {
    && (forall i :: 0 <= i < |s.log| ==> s.log[i].serial == i)
    && (forall i :: 0 <= i < |Order(s)| ==> Order(s)[i].serial < |s.log|)
  }

  /** An insertion repairs no inversion, and makes one if a later event goes before an earlier. */
  lemma {:induction false} InsertInverts(q: seq<Cell>, k: nat, c: Cell)
    requires k <= |q| && forall i :: 0 <= i < |q| ==> q[i].serial < c.serial
    requires Inverted(q) || k < |q|
    ensures Inverted(Insert(q, k, c))
  {
    var r := Insert(q, k, c);
    if k < |q| {
      assert r[k] == c && r[k + 1] == q[k];
    } else {
      var i, j :| 0 <= i < j < |q| && q[i].serial > q[j].serial;
      assert r[i] == q[i] && r[j] == q[j];
    }
  }

  lemma {:induction false} StepNumbered(s: State, st: Step)
    requires Numbered(s) && Enabled(s, st)
    ensures Numbered(Apply(s, st))
    ensures Inverted(Order(s)) || Overtakes(s, st) ==> Inverted(Order(Apply(s, st)))
  {
    hide Order, Inverted, Put, Get;
    StepOrders(s, st);
    if st.Emplace? {
      var r := Apply(s, st);
      assert r.log == s.log + [r.log[|s.log|]];
      if Inverted(Order(s)) || Overtakes(s, st) {
        InsertInverts(Order(s), Place(s, st.p), r.log[|s.log|]);
      }
    }
  }

  /** Once out of order, always out of order. */
  lemma {:induction false} StaysInverted(s: State, steps: seq<Step>)
    requires Numbered(s) && Runs(s, steps)
    ensures Numbered(Execute(s, steps))
    ensures Inverted(Order(s)) || !Orderly(s, steps) ==> Inverted(Order(Execute(s, steps)))
    decreases |steps|
  {
    hide Order, Overtakes, Inverted, Numbered, Apply, Enabled;
    if steps != [] {
      StepNumbered(s, steps[0]);
      StaysInverted(Apply(s, steps[0]), steps[1..]);
    }
  }

  lemma {:induction false} StaysOrdered(s: State, steps: seq<Step>)
    requires Runs(s, steps) && Order(s) == s.log && Orderly(s, steps)
    ensures Order(Execute(s, steps)) == Execute(s, steps).log
    decreases |steps|
  {
    hide Order, Overtakes, Place, Put, Get;
    if steps != [] {
      var st, r := steps[0], Apply(s, steps[0]);
      StepOrders(s, st);
      if st.Emplace? {
        var c := r.log[|s.log|];
        assert r.log == s.log + [c];
        assert Insert(Order(s), |Order(s)|, c) == Order(s) + [c];
      } else {
        assert r.log == s.log;
      }
      StaysOrdered(r, steps[1..]);
    }
  }

  /**
   In every interleaving: the order of handling, waiting events included, is the order of emplacement if and
   only if no emplace overtakes. Once nothing waits, this is the order in which everything was handled.
   */
  lemma {:induction false} InOrderIff(steps: seq<Step>)
    requires Runs(Init(), steps)
    ensures var s := Execute(Init(), steps);
            && (Order(s) == s.log <==> Orderly(Init(), steps))
            && (Read(s) == [] && Write(s) == [] ==> (s.handled == s.log <==> Orderly(Init(), steps)))
  {
    var s := Execute(Init(), steps);
    hide Execute, Runs, Orderly;
    if Orderly(Init(), steps) {
      StaysOrdered(Init(), steps);
    } else {
      StaysInverted(Init(), steps);
      LogNotInverted(s);
    }
    assert Read(s) == [] && Write(s) == [] ==> Order(s) == s.handled;
  }

  lemma {:induction false} LogNotInverted(s: State)
    requires Numbered(s)
    ensures !Inverted(s.log)
  {
    hide Order;
  }

  // ---------------------------------------------------------------- runs written out

  lemma {:induction false} ThreeSteps(s: State, a: Step, b: Step, c: Step, rest: seq<Step>)
    requires Enabled(s, a) && Enabled(Apply(s, a), b) && Enabled(Apply(Apply(s, a), b), c)
    ensures var t := Apply(Apply(Apply(s, a), b), c);
            && (Runs(t, rest) ==> Runs(s, [a, b, c] + rest))
            && (Runs(t, rest) ==> Execute(s, [a, b, c] + rest) == Execute(t, rest))
  {
    hide Enabled, Apply;
    OneStep(s, a, [b, c] + rest);
    OneStep(Apply(s, a), b, [c] + rest);
    OneStep(Apply(Apply(s, a), b), c, rest);
    assert [a] + ([b, c] + rest) == [a, b, c] + rest;
    assert [b] + ([c] + rest) == [b, c] + rest;
  }

  lemma {:induction false} NoSteps(s: State)
    ensures Runs(s, []) && Execute(s, []) == s
  {
  }

  lemma {:induction false} OneStep(s: State, a: Step, rest: seq<Step>)
    requires Enabled(s, a)
    ensures Runs(Apply(s, a), rest) ==> Runs(s, [a] + rest)
    ensures Runs(Apply(s, a), rest) ==> Execute(s, [a] + rest) == Execute(Apply(s, a), rest)
  {
    hide Enabled, Apply;
    assert ([a] + rest)[1..] == rest;
  }

  // ---------------------------------------------------------------- with `QueueEvent` atomic

  /** The steps when no exchange comes between a load and its emplace. */
  datatype Atomic = Queue(p: nat, e: Event) | Consume(step: Step)

  function Expand(a: Atomic): (steps: seq<Step>) {
    match a
    case Queue(p, e) => [Load(p, e), Emplace(p)]
    case Consume(st) => [st]
  }

  predicate ConsumerStep(st: Step) {
    st.Exchange? || st.Lock? || st.Handle? || st.Done?
  }

  predicate AtomicRuns(s: State, run: seq<Atomic>)
    decreases |run|
  {
    run == [] ||
    (&& (run[0].Consume? ==> ConsumerStep(run[0].step))
     && Runs(s, Expand(run[0]))
     && AtomicRuns(Execute(s, Expand(run[0])), run[1..]))
  }

  function AtomicExecute(s: State, run: seq<Atomic>): (r: State)
    requires AtomicRuns(s, run)
    decreases |run|
  {
    if run == [] then s else AtomicExecute(Execute(s, Expand(run[0])), run[1..])
  }

  /** First in, first out, over both queues; and each event is handled in exactly the call after it. */
  predicate Fifo(s: State) {
    && s.producers == map[]
    && s.handled + Read(s) + Write(s) == s.log
    && |s.calls| == |s.handled|
    && (forall i :: 0 <= i < |s.calls| ==> s.calls[i] == s.handled[i].stamp + 1)
    && Since(Write(s), s.begun, s.begun)
    && Since(Read(s), s.begun - 1, s.begun - 1)
    && (s.phase.Idle? ==> Read(s) == [])
  }

  lemma {:induction false} AtomicStepFifo(s: State, a: Atomic)
    requires Fifo(s) && Runs(s, Expand(a)) && (a.Consume? ==> ConsumerStep(a.step))
    ensures Fifo(Execute(s, Expand(a)))
  {
    match a
    case Queue(p, e) =>
      var t := Apply(s, Load(p, e));
      QueuedFifo(s, p, e);
      OneStep(s, Load(p, e), [Emplace(p)]);
      OneStep(t, Emplace(p), []);
      assert [Load(p, e)] + [Emplace(p)] == Expand(a) && [Emplace(p)] + [] == [Emplace(p)];
    case Consume(st) =>
      assert Expand(a)[1..] == [];
      assert Execute(s, Expand(a)) == Apply(s, st);
      ConsumedFifo(s, st);
  }

  lemma {:induction false} QueuedFifo(s: State, p: nat, e: Event)
    requires Fifo(s) && Enabled(s, Load(p, e))
    ensures Enabled(Apply(s, Load(p, e)), Emplace(p))
    ensures Fifo(Apply(Apply(s, Load(p, e)), Emplace(p)))
  {
    var r := Apply(Apply(s, Load(p, e)), Emplace(p));
    assert r.producers == map[];
    assert Write(r) == Write(s) + [Cell(e, s.begun, |s.log|)] && Read(r) == Read(s);
    assert r.handled + Read(r) + Write(r) == (s.handled + Read(s) + Write(s)) + [Cell(e, s.begun, |s.log|)];
  }

  lemma {:induction false} ConsumedFifo(s: State, st: Step)
    requires Fifo(s) && ConsumerStep(st) && Enabled(s, st)
    ensures Fifo(Apply(s, st))
  {
    var r := Apply(s, st);
    if st.Exchange? {
      assert Read(r) == Write(s) && Write(r) == Read(s) == [];
    } else if st.Handle? {
      assert Read(r) == Read(s)[1..] && Write(r) == Write(s);
      assert s.handled + Read(s) + Write(s) == (s.handled + [Read(s)[0]]) + Read(s)[1..] + Write(s);
    }
  }

  /** Whatever producers and handlers queue, handling is globally first in, first out. */
  lemma {:induction false} AtomicRunFifo(s: State, run: seq<Atomic>)
    requires Fifo(s) && AtomicRuns(s, run)
    ensures Fifo(AtomicExecute(s, run))
    decreases |run|
  {
    hide Fifo, Execute, Runs, Expand;
    if run != [] {
      AtomicStepFifo(s, run[0]);
      AtomicRunFifo(Execute(s, Expand(run[0])), run[1..]);
    }
  }

  lemma {:induction false} InitFifo()
    ensures Fifo(Init())
  {
  }

  /**
   From the start: handled, read queue and write queue are together the emplaced events in order, every event
   was handled in the call after the ones begun at its emplacement, and between calls nothing else has waited.
   */
  lemma {:induction false} HandledInOrder(run: seq<Atomic>)
    requires AtomicRuns(Init(), run)
    ensures var s := AtomicExecute(Init(), run);
            && s.handled + Read(s) + Write(s) == s.log
            && |s.calls| == |s.handled|
            && (forall i :: 0 <= i < |s.calls| ==> s.calls[i] == s.handled[i].stamp + 1)
            && (s.phase.Idle? ==> s.handled + Write(s) == s.log && Since(Write(s), s.begun, s.begun))
  {
    InitFifo();
    AtomicRunFifo(Init(), run);
    hide AtomicExecute, AtomicRuns;
    var s := AtomicExecute(Init(), run);
    assert s.handled + [] == s.handled;
  }

  // ---------------------------------------------------------------- the class

  function Events(q: seq<Cell>): (es: seq<Event>)
    ensures |es| == |q|
  {
    seq(|q|, i requires 0 <= i < |q| => q[i].event)
  }

  /** What the handlers of a list of events queue, in order. */
  function Emitted(emits: Event -> seq<Event>, es: seq<Event>): (r: seq<Event>) {
    if es == [] then [] else Emitted(emits, es[..|es| - 1]) + emits(es[|es| - 1])
  }

  class EventQueue {
    var readQueue: seq<Event>
    var writeQueue: seq<Event>
    /** The events passed to `On` so far. */
    var handled: seq<Event>
    ghost var state: State

    /** The fields are those of a reachable state of the atomic machine. */
    ghost predicate Valid()
      reads this
    {
      && Fifo(state)
      && readQueue == Events(Read(state))
      && writeQueue == Events(Write(state))
      && handled == Events(state.handled)
    }

    constructor ()
      ensures Valid() && state == Init()
    {
      readQueue, writeQueue, handled := [], [], [];
      state := Init();
    }

    method QueueEvent(e: Event)
      requires Valid()
      modifies this`writeQueue, this`state
      ensures Valid()
      ensures writeQueue == old(writeQueue) + [e]
      ensures state == Apply(Apply(old(state), Load(0, e)), Emplace(0))
    {
      hide Fifo;
      Unloaded(state, e);
      QueuedFifo(state, 0, e);
      writeQueue := writeQueue + [e];
      state := Apply(Apply(state, Load(0, e)), Emplace(0));
    }

    /** Handlers queue events while the drain goes on. */
    method ProcessEventQueue(emits: Event -> seq<Event>)
      requires Valid() && state.phase.Idle?
      modifies this
      ensures Valid() && state.phase.Idle?
      ensures state.begun == old(state.begun) + 1
      ensures handled == old(handled) + old(writeQueue)
      ensures readQueue == [] && writeQueue == Emitted(emits, old(writeQueue))
    {
      hide Fifo, Apply, Put, Events, Write;
      IdleEmpty(state);
      Consumer(state, Exchange);
      readQueue, writeQueue := writeQueue, readQueue;
      state := Apply(state, Exchange);
      Consumer(state, Lock);
      state := Apply(state, Lock);
      ghost var taken := readQueue;
      while |readQueue| > 0
        invariant Valid() && state.phase.Draining?
        invariant state.begun == old(state.begun) + 1
        invariant |readQueue| <= |taken| && readQueue == taken[|taken| - |readQueue|..]
        invariant handled == old(handled) + taken[..|taken| - |readQueue|]
        invariant writeQueue == Emitted(emits, taken[..|taken| - |readQueue|])
        decreases |readQueue|
      {
        ghost var done := |taken| - |readQueue|;
        Consumer(state, Handle);
        var e := readQueue[0];
        readQueue := readQueue[1..];
        handled := handled + [e];
        state := Apply(state, Handle);
        assert taken[..done + 1][..done] == taken[..done];
        On(emits(e));
      }
      assert taken[..|taken|] == taken;
      Consumer(state, Done);
      state := Apply(state, Done);
    }

    /** A handler queues its events. */
    method On(es: seq<Event>)
      requires Valid()
      modifies this`writeQueue, this`state
      ensures Valid() && state.phase == old(state.phase) && state.begun == old(state.begun)
      ensures writeQueue == old(writeQueue) + es
    {
      hide Fifo;
      var i := 0;
      while i < |es|
        invariant 0 <= i <= |es|
        invariant Valid() && state.phase == old(state.phase) && state.begun == old(state.begun)
        invariant writeQueue == old(writeQueue) + es[..i]
      {
        QueueEvent(es[i]);
        i := i + 1;
      }
    }
  }

  lemma {:induction false} Unloaded(s: State, e: Event)
    requires Fifo(s)
    ensures Enabled(s, Load(0, e)) && Enabled(Apply(s, Load(0, e)), Emplace(0))
    ensures var r := Apply(Apply(s, Load(0, e)), Emplace(0));
            && Write(r) == Write(s) + [Cell(e, s.begun, |s.log|)] && Read(r) == Read(s)
            && r.handled == s.handled && r.phase == s.phase && r.begun == s.begun
  {
  }

  lemma {:induction false} IdleEmpty(s: State)
    requires Fifo(s) && s.phase.Idle?
    ensures Read(s) == []
  {
  }

  /** What each consumer step does to the queues. */
  lemma {:induction false} Consumer(s: State, st: Step)
    requires Fifo(s) && ConsumerStep(st) && Enabled(s, st)
    ensures Fifo(Apply(s, st))
    ensures var r := Apply(s, st);
            match st
            case Exchange =>
              && Read(r) == Write(s) && Write(r) == Read(s) && r.handled == s.handled
              && r.phase.Swapped? && r.begun == s.begun + 1
            case Lock =>
              && Read(r) == Read(s) && Write(r) == Write(s) && r.handled == s.handled
              && r.phase.Draining? && r.begun == s.begun
            case Handle =>
              && Events(Read(r)) == Events(Read(s))[1..] && Write(r) == Write(s)
              && Events(r.handled) == Events(s.handled) + [Events(Read(s))[0]]
              && r.phase.Draining? && r.begun == s.begun
            case _ =>
              && Read(r) == Read(s) && Write(r) == Write(s) && r.handled == s.handled
              && r.phase.Idle? && r.begun == s.begun
  {
    ConsumedFifo(s, st);
  }
}
